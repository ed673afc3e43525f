/** The heap block manager (allchblk.c): size-binned free lists, splitting and coalescing. */
module BlockAllocator {
  import opened Sizes
  import opened Collections
  import opened HeaderIndex
  import opened HeapShape
  import opened HeapCarving
  import opened Placement
  import BlackList

  /** Memory near address zero is not used. */
  function FirstUsable(p: int): int {
    if p <= 1 then 2 else p
  }

  class Heap {
    const index: Index
    const bl: BlackList.Tables
    /** GC_black_list_spacing. */
    var blLimit: int
    /** GC_find_leak. */
    var findLeak: bool
    /** The static counter of completely black-listed blocks. */
    var dropCount: nat
    /** GC_hblkfreelist: the first block of each list, or 0. */
    const fl: array<int>
    /** GC_free_bytes. */
    const fb: array<int>
    /** GC_large_free_bytes. */
    var largeFree: int
    /** GC_heapsize. */
    var heapsize: int
    /** GC_bytes_dropped. */
    var bytesDropped: int
    ghost var owner: map<int, int>
    ghost var lists: seq<seq<int>>

    /** The index is well formed and the free lists are doubly linked lists with exact byte counts. */
    ghost predicate Linked()
      reads this`lists, index, fl, fb
    {
      && index.Valid()
      && fl != fb
      && ListsOk(index.view, fl[..], fb[..], lists)
    }

    /** Blocks, index and free lists agree. */
    ghost predicate Ready()
      reads this`owner, this`lists, index, fl, fb
    {
      && index.Valid()
      && fl != fb
      && Sound(index.view, owner, fl[..], fb[..], lists, 0) == true
    }

    /** Everything but the heap size, which AddToHeap updates last. */
    ghost predicate Consistent()
      reads this`owner, this`lists, this`largeFree, index, fl, fb
    {
      Ready() && largeFree == HBLKSIZE * |FreeSet(index.view, owner)|
    }

    ghost predicate Valid()
      reads this, index, fl, fb
    {
      Consistent() && heapsize == HBLKSIZE * |owner.Keys|
    }

    constructor (bl: BlackList.Tables, blLimit: int, findLeak: bool)
      requires bl.Valid()
      ensures this.bl == bl && this.blLimit == blLimit && this.findLeak == findLeak
      ensures Valid() && owner == map[] && fresh(index) && fresh(fl) && fresh(fb)
    {
      index := new Index();
      this.bl, this.blLimit, this.findLeak, dropCount := bl, blLimit, findLeak, 0;
      fl := new int[N_LISTS](_ => 0);
      fb := new int[N_LISTS](_ => 0);
      largeFree, heapsize, bytesDropped := 0, 0, 0;
      owner := map[];
      lists := seq(N_LISTS, _ => []);
      new;
      assert FreeSet(index.view, owner) == {};
    }

    /** The assignments of GC_remove_from_fl_at. */
    method UnlinkBlock(h: int, i: int)
      requires index.Valid() && fl != fb && fl.Length == fb.Length == N_LISTS && 0 <= i < N_LISTS
      requires Unlinkable(index.view, h)
      modifies index, fl, fb
      ensures index.Valid() && index.view == Unlink(old(index.view), h)
      ensures var hhdr := old(index.view)[h].hdr;
        && fl[..] == (if hhdr.prev == 0 then old(fl[..])[i := hhdr.next] else old(fl[..]))
        && fb[..] == old(fb[..])[i := old(fb[i]) - hhdr.sz]
      ensures index.order == old(index.order)
    {
      var hhdr := index.Hdr(h).hdr;
      if hhdr.prev == 0 {
        fl[i] := hhdr.next;
      } else {
        var phdr := index.Hdr(hhdr.prev).hdr;
        index.PutHdr(hhdr.prev, phdr.(next := hhdr.next));
      }
      fb[i] := fb[i] - hhdr.sz;
      if hhdr.next != 0 {
        var nhdr := index.Hdr(hhdr.next).hdr;
        index.PutHdr(hhdr.next, nhdr.(prev := hhdr.prev));
      }
    }

    /** GC_remove_from_fl_at: unlink block h, which is at place j of list i. */
    method RemoveFromFlAt(h: int, i: int, ghost j: nat)
      requires Linked() && 0 <= i < N_LISTS && j < |lists[i]| && lists[i][j] == h
      modifies this`lists, index, fl, fb
      ensures Linked() && lists == Remove(old(lists), i, j) && MinusOne(old(lists), lists, h) == true
      ensures IsHead(index.view, h) && IsHead(old(index.view), h) && index.view[h] == old(index.view)[h]
      ensures SameShape(old(index.view), index.view)
      ensures forall b | b in old(index.view) && b !in old(lists[i]) :: index.view[b] == old(index.view)[b]
      ensures index.order == old(index.order)
    {
      ListsRemove(index.view, fl[..], fb[..], lists, i, j);
      UnlinkBlock(h, i);
      lists := Remove(lists, i, j);
    }

    /** The assignments of GC_add_to_fl. */
    method LinkFront(h: int) returns (i: int)
      requires index.Valid() && fl != fb && fl.Length == fb.Length == N_LISTS
      requires IsHead(index.view, h) && index.view[h].hdr.sz >= 0
      requires var i := BinOf(index.view[h].hdr); fl[i] == 0 || IsHead(index.view, fl[i])
      modifies index, fl, fb
      ensures index.Valid() && i == BinOf(old(index.view)[h].hdr)
      ensures index.view == PushFront(old(index.view), h, old(fl[i]))
      ensures fl[..] == old(fl[..])[i := h]
      ensures fb[..] == old(fb[..])[i := old(fb[i]) + old(index.view)[h].hdr.sz]
      ensures index.order == old(index.order)
    {
      var hhdr := index.Hdr(h).hdr;
      i := HblkFlFromBlocks(ObjSzToBlocks(hhdr.sz));
      var second := fl[i];
      fl[i] := h;
      fb[i] := fb[i] + hhdr.sz;
      index.PutHdr(h, hhdr.(next := second, prev := 0));
      if second != 0 {
        var secondHdr := index.Hdr(second).hdr;
        index.PutHdr(second, secondHdr.(prev := h));
      }
      hhdr := index.Hdr(h).hdr;
      index.PutHdr(h, hhdr.(free := true));
    }

    /** GC_add_to_fl: push block h on the list for its size and mark it free. */
    method AddToFl(h: int) returns (ghost i: int)
      requires Linked() && IsHead(index.view, h) && h != 0 && index.view[h].hdr.sz >= 0 && UnlistedIn(lists, h)
      modifies this`lists, index, fl, fb
      ensures Linked() && i == BinOf(old(index.view)[h].hdr)
      ensures lists == old(lists)[i := [h] + old(lists[i])]
      ensures SameShape(MarkFree(old(index.view), h), index.view)
      ensures forall b | b in old(index.view) && b != h && b !in old(lists[i]) :: index.view[b] == old(index.view)[b]
      ensures index.order == old(index.order)
    {
      i := BinOf(index.view[h].hdr);
      ListsPush(index.view, fl[..], fb[..], lists, i, h);
      i := LinkFront(h);
      lists := lists[i := [h] + lists[i]];
    }

    /** Block h is in use and everything else is in order; slots behind its head may hold counts or nothing. */
    ghost predicate Releasable(h: int)
      reads this`owner, this`lists, index, fl, fb
    {
      && index.Valid()
      && fl != fb
      && Sound(index.view, owner, fl[..], fb[..], lists, h) == true
      && IsUsed(index.view, h)
    }

    ghost predicate LooseBlock(h: int)
      reads this`owner, this`lists, index, fl, fb
    {
      (Linked() && Loose(index.view, owner, lists, h)) == true
    }

    /** Drop the forwarding counts of block h and rewrite its header. */
    method ClearCounts(h: int) returns (size: int, ghost v1: View)
      requires index.Valid() && IsHead(index.view, h) && h >= 0 && index.view[h].hdr.sz > 0
      modifies index
      ensures index.Valid() && size == HBLKSIZE * Len(old(index.view)[h].hdr)
      ensures CountsRemoved(old(index.view), v1, h, h + Len(old(index.view)[h].hdr))
      ensures (forall b | b in v1 :: v1[b] != Nil) && IsHead(v1, h)
      ensures index.view == Resized(v1, h, HBLKSIZE * Len(old(index.view)[h].hdr))
      ensures index.order == old(index.order)
    {
      var hhdr := index.Hdr(h).hdr;
      size := HBLKSIZE * ObjSzToBlocks(hhdr.sz);
      index.RemoveCounts(h, size);
      v1 := index.view;
      hhdr := index.Hdr(h).hdr;
      index.PutHdr(h, hhdr.(sz := size));
      hhdr := index.Hdr(h).hdr;
      index.PutHdr(h, hhdr.(free := true));
    }

    /** The first part of GC_freehblk: drop the forwarding counts and mark the block free. */
    method MarkBlockFree(h: int) returns (size: int)
      requires Releasable(h) == true
      modifies index
      ensures LooseBlock(h)
      ensures size == Len(old(index.view)[h].hdr) * HBLKSIZE && size / HBLKSIZE == Len(index.view[h].hdr)
      ensures Taken(FreeSet(index.view, owner), old(Interval(h, h + Len(index.view[h].hdr))), old(FreeSet(index.view, owner))) == true
      ensures HBLKSIZE * |FreeSet(index.view, owner)| == HBLKSIZE * |old(FreeSet(index.view, owner))| + size
      ensures Released(old(index.view), index.view, h) == true
      ensures index.order == old(index.order)
    {
      ghost var v, v1 := index.view, index.view;
      HeadOwnsItself(v, owner, h, h);
      size, v1 := ClearCounts(h);
      Release(v, owner, fl[..], fb[..], lists, h, v1);
    }

    /** GC_remove_from_fl on a free block other than h. */
    method RemoveFromFl(x: int, ghost h: int)
      requires LooseBlock(h) && FreeHead(index.view, x) && x != h
      modifies this`lists, index, fl, fb
      ensures Linked() && MinusOne(old(lists), lists, x) && UnlistedIn(lists, x) && UnlistedIn(lists, h)
      ensures SameShape(old(index.view), index.view) && SameUsed(old(index.view), index.view) == true
      ensures index.order == old(index.order)
    {
      ghost var v := index.view;
      assert Extent(v, owner, x);
      var hhdr := index.Hdr(x).hdr;
      var i := HblkFlFromBlocks(hhdr.sz / HBLKSIZE);
      ghost var j :| 0 <= j < |lists[i]| && lists[i][j] == x;
      ListsRemove(v, fl[..], fb[..], lists, i, j);
      ghost var lists0 := lists;
      RemoveFromFlAt(x, i, j);
      RelinkKeepsUsed(v, index.view, lists0, i, h);
    }

    /** The free block a takes over the free block b behind it. */
    method Swallow(a: int, b: int)
      requires index.Valid() && FreeHead(index.view, a) && FreeHead(index.view, b) && a != b
      requires b == a + Len(index.view[a].hdr)
      modifies index
      ensures index.Valid() && index.view == Absorb(old(index.view), a)
      ensures index.order == old(index.order)
    {
      var ahdr, bhdr := index.Hdr(a).hdr, index.Hdr(b).hdr;
      index.PutHdr(a, ahdr.(sz := ahdr.sz + bhdr.sz));
      index.RemoveHeader(b);
    }

    /** Coalesce the loose block h with its successor, if that is free. */
    method CoalesceNext(h: int, next: int)
      requires LooseBlock(h) && next == h + Len(index.view[h].hdr)
      modifies this`lists, this`owner, index, fl, fb
      ensures LooseBlock(h) && owner.Keys == old(owner.Keys)
      ensures FreeSet(index.view, owner) == old(FreeSet(index.view, owner))
      ensures SameUsed(old(index.view), index.view) == true
      ensures GapAfter(index.view, h) && SameBelow(old(index.view), index.view, h)
      ensures index.order == old(index.order)
    {
      NextIsHead(index.view, owner, h);
      var nextSlot := index.Hdr(next);
      if nextSlot != Nil && nextSlot.hdr.free {
        MergeNext(h, next);
      }
    }

    /** The successor is free: take it off its list and merge. */
    method MergeNext(h: int, next: int)
      requires LooseBlock(h) && next == h + Len(index.view[h].hdr) && FreeHead(index.view, next)
      modifies this`lists, this`owner, index, fl, fb
      ensures LooseBlock(h) && owner.Keys == old(owner.Keys)
      ensures FreeSet(index.view, owner) == old(FreeSet(index.view, owner))
      ensures SameUsed(old(index.view), index.view) == true
      ensures GapAfter(index.view, h) && SameBelow(old(index.view), index.view, h)
      ensures index.order == old(index.order)
    {
      ghost var v, lists0 := index.view, lists;
      HeadOwnsItself(v, owner, 0, h);
      RemoveFromFl(next, h);
      ghost var v1 := index.view;
      LooseMergeNext(v, owner, lists0, h, v1, lists);
      AbsorbKeepsLists(v1, fl[..], fb[..], lists, h);
      AbsorbSameBelow(v, v1, h);
      owner := MergedOwner(v1, owner, h);
      Swallow(h, next);
    }

    /** Coalesce the loose block h with its predecessor prev. */
    method CoalescePrev(h: int, prev: int)
      requires LooseBlock(h) && GapAfter(index.view, h)
      requires FreeHead(index.view, prev) && prev + Len(index.view[prev].hdr) == h
      modifies this`lists, this`owner, index, fl, fb
      ensures LooseBlock(prev) && owner.Keys == old(owner.Keys)
      ensures FreeSet(index.view, owner) == old(FreeSet(index.view, owner))
      ensures SameUsed(old(index.view), index.view) == true
      ensures GapAfter(index.view, prev) && GapBefore(index.view, prev)
      ensures index.order == old(index.order)
    {
      ghost var v := index.view;
      HeadOwnsItself(v, owner, 0, prev);
      ghost var lists0 := lists;
      RemoveFromFl(prev, h);
      ghost var v1 := index.view;
      Swallow(prev, h);
      LooseMergePrev(v, owner, lists0, h, prev, v1, lists);
      AbsorbKeepsLists(v1, fl[..], fb[..], lists, prev);
      owner := MergedOwner(v1, owner, prev);
    }

    /** GC_add_to_fl for a loose block with no free neighbours. */
    method ListLoose(h: int)
      requires LooseBlock(h) && GapAfter(index.view, h) && GapBefore(index.view, h)
      modifies this`lists, index, fl, fb
      ensures Ready() == true
      ensures FreeSet(index.view, owner) == old(FreeSet(index.view, owner))
      ensures SameUsed(old(index.view), index.view) == true
      ensures index.order == old(index.order)
    {
      ghost var v, lists0 := index.view, lists;
      HeadOwnsItself(v, owner, 0, h);
      ghost var i := AddToFl(h);
      LooseListed(v, owner, lists0, h, index.view, i);
    }

    /** Find the free block that ends where the loose block h starts. */
    method PrevFree(h: int) returns (prev: int)
      requires LooseBlock(h)
      ensures prev == 0 ==> GapBefore(index.view, h)
      ensures prev != 0 ==> FreeHead(index.view, prev) && prev + Len(index.view[prev].hdr) == h && prev < h
    {
      TiledLeads(index.view, owner);
      NoStraddle(index.view, owner, h);
      prev := index.FreeBlockEndingAt(h);
      if prev != 0 {
        HeadOwnsItself(index.view, owner, 0, prev);
      }
    }

    /** Merge the loose block h with its free neighbours; hbp is the head of the result. */
    method Coalesce(h: int, next: int) returns (hbp: int)
      requires LooseBlock(h) && next == h + Len(index.view[h].hdr)
      modifies this`lists, this`owner, index, fl, fb
      ensures LooseBlock(hbp) && GapAfter(index.view, hbp) && GapBefore(index.view, hbp)
      ensures owner.Keys == old(owner.Keys)
      ensures FreeSet(index.view, owner) == old(FreeSet(index.view, owner))
      ensures SameUsed(old(index.view), index.view) == true
      ensures index.order == old(index.order)
    {
      ghost var v1 := index.view;
      var prev := PrevFree(h);
      CoalesceNext(h, next);
      ghost var v2 := index.view;
      if prev != 0 {
        CoalescePrev(h, prev);
        return prev;
      } else {
        GapStays(v1, v2, owner, h);
        return h;
      }
    }

    /** The rest of GC_freehblk: merge the loose block h, count its bytes as free and list the result. */
    method CoalesceAndList(h: int, size: int)
      requires LooseBlock(h) && size / HBLKSIZE == Len(index.view[h].hdr)
      modifies this`lists, this`owner, this`largeFree, index, fl, fb
      ensures Ready() == true
      ensures owner.Keys == old(owner.Keys) && largeFree == old(largeFree) + size
      ensures FreeSet(index.view, owner) == old(FreeSet(index.view, owner))
      ensures SameUsed(old(index.view), index.view) == true
      ensures index.order == old(index.order)
    {
      var hbp := Coalesce(h, h + size / HBLKSIZE);
      largeFree := largeFree + size;
      ListLoose(hbp);
    }

    /** GC_freehblk: give block h back, merging it with free neighbours.  The source aborts when h is free. */
    method Freehblk(h: int)
      requires Releasable(h) == true && largeFree == HBLKSIZE * |FreeSet(index.view, owner)|
      modifies this`lists, this`owner, this`largeFree, index, fl, fb
      ensures Consistent() == true && owner.Keys == old(owner.Keys)
      ensures Taken(FreeSet(index.view, owner), old(Interval(h, h + Len(index.view[h].hdr))), old(FreeSet(index.view, owner))) == true
      ensures Released(old(index.view), index.view, h) == true
      ensures index.order == old(index.order)
    {
      ghost var v := index.view;
      var size := MarkBlockFree(h);
      ghost var v1 := index.view;
      CoalesceAndList(h, size);
      ReleasedChain(v, v1, index.view, h);
    }

    // ---------------------------------------------------------------------------------- carving

    /** The lists are in order and block h, somewhere on them, may be carved up. */
    ghost predicate ChosenBlock(h: int)
      reads this`owner, this`lists, index, fl, fb
    {
      (Linked() && Chosen(index.view, owner, lists, h)) == true
    }

    /** The first bytes of block h are loose; its header still has the old size. */
    ghost predicate LoosePart(h: int, bytes: int)
      reads this`owner, this`lists, index, fl, fb
    {
      (Linked() && IsHead(index.view, h) && Loose(Cut(index.view, h, bytes), owner, lists, h)) == true
    }

    /** Set the forward link of block b, or the head of list i. */
    method SetNext(b: int, i: int, n: int)
      requires index.Valid() && fl != fb && fl.Length == fb.Length == N_LISTS && 0 <= i < N_LISTS
      requires b == 0 || IsHead(index.view, b)
      modifies index, fl
      ensures index.Valid()
      ensures index.view == (if b == 0 then old(index.view)
                             else old(index.view)[b := Header(old(index.view)[b].hdr.(next := n))])
      ensures fl[..] == (if b == 0 then old(fl[..])[i := n] else old(fl[..]))
    {
      if b != 0 {
        index.PutHdr(b, index.Hdr(b).hdr.(next := n));
      } else {
        fl[i] := n;
      }
    }

    /** Set the backward link of block b, if there is one. */
    method SetPrev(b: int, n: int)
      requires index.Valid() && (b == 0 || IsHead(index.view, b))
      modifies index
      ensures index.Valid()
      ensures index.view == (if b == 0 then old(index.view)
                             else old(index.view)[b := Header(old(index.view)[b].hdr.(prev := n))])
    {
      if b != 0 {
        index.PutHdr(b, index.Hdr(b).hdr.(prev := n));
      }
    }

    method AddBytes(i: int, d: int)
      requires fb.Length == N_LISTS && 0 <= i < N_LISTS
      modifies fb
      ensures fb[..] == old(fb[..])[i := old(fb[..])[i] + d]
    {
      fb[i] := fb[i] + d;
    }

    /** The first assignments of GC_split_block: n, whose header is there, replaces h on list i. */
    method ReplaceOnList(h: int, n: int, i: int)
      requires index.Valid() && fl != fb && fl.Length == fb.Length == N_LISTS && 0 <= i < N_LISTS
      requires Unlinkable(index.view, h) && IsHead(index.view, n) && n != h
      modifies index, fl, fb
      ensures index.Valid()
      ensures var v := old(index.view);
        && index.view == Replace(v, h, n, RestHdr(v[h].hdr, h, n, v[n].hdr))
        && fl[..] == (if v[h].hdr.prev == 0 then old(fl[..])[i := n] else old(fl[..]))
        && fb[..] == old(fb[..])[i := old(fb[..])[i] - (n - h) * HBLKSIZE]
    {
      var hhdr, nhdr := index.Hdr(h).hdr, index.Hdr(n).hdr;
      index.PutHdr(n, RestHdr(hhdr, h, n, nhdr).(prev := hhdr.prev, next := hhdr.next));
      SetNext(hhdr.prev, i, n);
      SetPrev(hhdr.next, n);
      AddBytes(i, -(n - h) * HBLKSIZE);
    }

    /** Install a header for n and put n in the place of h. */
    method StandIn(h: int, n: int, i: int, ghost j: nat) returns (ghost nhdr: Hdr)
      requires Linked() && 0 <= i < N_LISTS && j < |lists[i]| && lists[i][j] == h && n !in index.view && n > 0
      modifies this`lists, index, fl, fb
      ensures Linked() && lists[i] == old(lists)[i][j := n] && IsHead(index.view, h) && UnlistedIn(lists, h)
      ensures IsHead(index.view, n)
      ensures StoodIn(old(index.view), old(lists), h, n, i, nhdr, index.view, lists) == true
    {
      var junk: Hdr := *;
      StandInLists(index.view, fl[..], fb[..], lists, i, j, n, junk);
      nhdr := RestHdr(index.view[h].hdr, h, n, junk);
      index.InstallHeader(n, junk);
      ReplaceOnList(h, n, i);
      lists := lists[i := lists[i][j := n]];
    }

    /** The last assignments of GC_split_block: list h again and mark n free. */
    method ListFront(h: int, n: int, ghost i: int)
      requires Linked() && IsHead(index.view, h) && h != 0 && index.view[h].hdr.sz >= 0 && UnlistedIn(lists, h)
      requires IsHead(index.view, n) && n != h && i == BinOf(index.view[h].hdr)
      modifies this`lists, index, fl, fb
      ensures Linked() && Fronted(old(index.view), old(lists), h, n, i, index.view, lists) == true
    {
      ghost var v, lists0 := index.view, lists;
      ghost var i1 := AddToFl(h);
      FrontedMark(v, fl[..], fb[..], lists0, h, n, i, index.view, lists);
      var nhdr := index.Hdr(n).hdr;
      index.PutHdr(n, nhdr.(free := true));
    }

    /** GC_install_header and GC_split_block: cut the listed block h at n; n takes its place on list i. */
    method SplitBlock(h: int, n: int, i: int, ghost j: nat) returns (ghost j2: nat)
      requires Ready() == true
      requires FreeHead(index.view, h) && h < n < h + Len(index.view[h].hdr)
      requires 0 <= i < N_LISTS && j < |lists[i]| && lists[i][j] == h
      modifies this`lists, this`owner, index, fl, fb
      ensures ChosenBlock(n) == true && j2 < |lists[i]| && lists[i][j2] == n
      ensures index.view[n].hdr.sz == old(index.view)[h].hdr.sz - (n - h) * HBLKSIZE
      ensures owner.Keys == old(owner.Keys) && FreeSet(index.view, owner) == old(FreeSet(index.view, owner))
      ensures SameUsed(old(index.view), index.view) == true
    {
      ghost var v, owner0, lists0 := index.view, owner, lists;
      assert SoundShape(v, owner, lists);
      HeadOwnsItself(v, owner, 0, h);
      InsideIsEmpty(v, owner, h, n);
      owner := SplitOwner(v, owner, h, n);
      ghost var nhdr := StandIn(h, n, i, j);
      ghost var v1, lists1 := index.view, lists;
      CutHdr(h, (n - h) * HBLKSIZE);
      ListFront(h, n, HblkFlFromBlocks(n - h));
      SplitDone(v, owner0, lists0, h, n, i, nhdr, v1, lists1, index.view, lists);
      j2 :| j2 < |lists[i]| && lists[i][j2] == n;
    }

    /** Set the size of an unlisted block. */
    method CutHdr(h: int, sz: int)
      requires Linked() && IsHead(index.view, h) && UnlistedIn(lists, h)
      modifies index
      ensures Linked() && index.view == Cut(old(index.view), h, sz)
    {
      ListsFrame(index.view, Cut(index.view, h, sz), fl[..], fb[..], lists) by {
        forall k, x | 0 <= k < N_LISTS && x in lists[k] ensures x in index.view && x != h {
          assert OneListOk(index.view, fl[..][k], fb[..][k], lists[k]);
        }
      }
      index.PutHdr(h, index.Hdr(h).hdr.(sz := sz));
    }

    /** GC_get_first_part: take the listed block h off list i, giving all but the first bytes back. */
    method GetFirstPart(h: int, bytes: int, i: int, ghost j: nat)
      requires ChosenBlock(h) == true && 0 <= i < N_LISTS && j < |lists[i]| && lists[i][j] == h
      requires 0 < bytes <= index.view[h].hdr.sz && bytes % HBLKSIZE == 0
      modifies this`lists, this`owner, index, fl, fb
      ensures LoosePart(h, bytes) && owner.Keys == old(owner.Keys)
      ensures FreeSet(Cut(index.view, h, bytes), owner) == old(FreeSet(index.view, owner))
      ensures SameUsed(old(index.view), index.view) == true
    {
      ghost var v, lists0 := index.view, lists;
      var totalSize := index.Hdr(h).hdr.sz;
      RemoveFromFlAt(h, i, j);
      ghost var v1, lists1 := index.view, lists;
      ChosenRelink(v, owner, lists0, h, i, v1, lists1);
      if totalSize == bytes {
        TakeWhole(v, owner, lists0, h, v1, lists1);
        return;
      }
      ghost var rhdr, i2 := ListRest(h, h + bytes / HBLKSIZE, totalSize - bytes);
      PartDone(v, owner, lists0, h, v1, lists1, bytes, rhdr, i2, index.view, lists);
      owner := SplitOwner(v1, owner, h, h + bytes / HBLKSIZE);
    }

    /** Make a header of size sz for the free block n and list it. */
    method ListRest(h: int, n: int, sz: int) returns (ghost rhdr: Hdr, ghost i: int)
      requires Linked() && n > 0 && n !in index.view && sz >= 0
      modifies this`lists, index, fl, fb
      ensures Linked() && rhdr.sz == sz
      ensures RestPushed(old(index.view), old(lists), n, rhdr, i, index.view, lists) == true
    {
      ghost var v := index.view;
      var junk: Hdr := *;
      index.InstallHeader(n, junk);
      var restHdr := index.Hdr(n).hdr.(sz := sz, flags := 0, free := false);
      index.PutHdr(n, restHdr);
      rhdr := restHdr;
      InstallUnlisted(v, fl[..], fb[..], lists, n, Header(junk), Header(rhdr));
      i := AddToFl(n);
    }

    /** Install the forwarding counts and the header of the loose part h. */
    method SetUpBlock(h: int, sz: int, need: int, kind: int, flags: int)
      requires LoosePart(h, need) && sz > 0 && need == HBLKSIZE * ObjSzToBlocks(sz)
      modifies index
      ensures Ready() == true
      ensures FreeSet(index.view, owner)
           == old(FreeSet(Cut(index.view, h, need), owner)) - Interval(h, h + ObjSzToBlocks(sz))
      ensures Interval(h, h + ObjSzToBlocks(sz)) <= old(FreeSet(Cut(index.view, h, need), owner))
      ensures |FreeSet(index.view, owner)| == |old(FreeSet(Cut(index.view, h, need), owner))| - ObjSzToBlocks(sz)
      ensures Granted(old(index.view), index.view, h) == true && IsHead(index.view, h)
      ensures FreshHeader(index.view, h, sz, kind, flags) == true
    {
      ghost var v := index.view;
      HeadOwnsItself(Cut(v, h, need), owner, 0, h);
      index.InstallCounts(h, need);
      ghost var v1 := index.view;
      var hhdr := index.Hdr(h).hdr;
      Grant(v, owner, fl[..], fb[..], lists, h, need, v1, SetUp(hhdr, sz, kind, flags));
      WholeBlocks(ObjSzToBlocks(sz));
      index.PutHdr(h, SetUp(hhdr, sz, kind, flags));
    }

    /** The end of GC_allochblk_nth: forwarding counts, header and byte count of the block handed out. */
    method InstallUsed(h: int, sz: int, need: int, kind: int, flags: int)
      requires LoosePart(h, need) && sz > 0 && need == HBLKSIZE * ObjSzToBlocks(sz)
      requires largeFree == HBLKSIZE * |FreeSet(Cut(index.view, h, need), owner)|
      modifies this`largeFree, index
      ensures Consistent() == true
      ensures FreeSet(index.view, owner)
           == old(FreeSet(Cut(index.view, h, need), owner)) - Interval(h, h + ObjSzToBlocks(sz))
      ensures Interval(h, h + ObjSzToBlocks(sz)) <= old(FreeSet(Cut(index.view, h, need), owner))
      ensures Granted(old(index.view), index.view, h) == true && IsHead(index.view, h)
      ensures FreshHeader(index.view, h, sz, kind, flags) == true
    {
      SetUpBlock(h, sz, need, kind, flags);
      largeFree := largeFree - need;
    }

    /** The loop that turns the unlisted block h into pointer-free objects of one block each. */
    method DropLoop(h: int, limit: int)
      requires index.Valid() && 0 < h < limit && IsHead(index.view, h)
      modifies index
      ensures index.Valid() && DroppedTo(old(index.view), h, limit, index.view) == true
    {
      var k := h;
      while k < limit
        invariant h <= k <= limit && index.Valid() && IsHead(index.view, h)
        invariant DroppedTo(old(index.view), h, k, index.view) == true
      {
        ghost var v1 := index.view;
        DropOne(k, k != h);
        ghost var hdr :| index.view == v1[k := Header(SetUp(hdr, HBLKSIZE, PTRFREE, 0))];
        DroppedToStep(old(index.view), h, k, v1, SetUp(hdr, HBLKSIZE, PTRFREE, 0));
        k := k + 1;
      }
    }

    /** Set up block k as a dropped block; isNew says that it has no header yet. */
    method DropOne(k: int, isNew: bool)
      requires index.Valid() && k > 0 && (isNew || IsHead(index.view, k))
      modifies index
      ensures index.Valid() && exists hdr :: index.view == old(index.view)[k := Header(SetUp(hdr, HBLKSIZE, PTRFREE, 0))]
    {
      if isNew {
        var junk: Hdr := *;
        index.InstallHeader(k, junk);
      }
      var hhdr := index.Hdr(k).hdr;
      index.PutHdr(k, SetUp(hhdr, HBLKSIZE, PTRFREE, 0));
    }

    /** Unlink block h and turn it into dropped blocks. */
    method Lose(h: int, limit: int, i: int, ghost j: nat)
      requires Ready() == true
      requires 0 <= i < N_LISTS && j < |lists[i]| && lists[i][j] == h
      requires FreeHead(index.view, h) && h > 0 && limit == h + Len(index.view[h].hdr) && limit > h
      modifies this`lists, this`owner, index, fl, fb
      ensures Ready() == true
      ensures owner.Keys == old(owner.Keys) && lists == Remove(old(lists), i, j) && MinusOne(old(lists), lists, h) == true
      ensures var d := Interval(h, limit);
        && Dropping(old(index.view), d, index.view) == true
        && FreeSet(index.view, owner) == old(FreeSet(index.view, owner)) - d
        && d <= old(FreeSet(index.view, owner))
        && |FreeSet(index.view, owner)| == |old(FreeSet(index.view, owner))| - (limit - h)
    {
      ghost var v, owner0, lists0 := index.view, owner, lists;
      assert SoundShape(v, owner, lists);
      RemoveFromFlAt(h, i, j);
      ghost var v1, lists1 := index.view, lists;
      SoundRelink(v, owner, lists0, h, i, v1);
      owner := DroppedOwner(v1, owner, h);
      DropLoop(h, limit);
      DropDone(v, owner0, lists0, h, limit, v1, fl[..], fb[..], lists1, index.view);
    }

    /** Give up the black-listed free block h at place j of list i: its blocks become pointer-free objects. */
    method DropBlock(h: int, i: int, ghost j: nat) returns (limit: int)
      requires Consistent() == true && 0 <= i < N_LISTS && j < |lists[i]| && lists[i][j] == h
      modifies this`lists, this`owner, this`largeFree, this`bytesDropped, index, fl, fb
      ensures Consistent() == true && owner.Keys == old(owner.Keys)
      ensures lists == Remove(old(lists), i, j) && MinusOne(old(lists), lists, h) == true
      ensures FreeHead(old(index.view), h) && limit == h + Len(old(index.view)[h].hdr) && limit > h
      ensures Dropping(old(index.view), Interval(h, limit), index.view) == true
      ensures FreeSet(index.view, owner) == old(FreeSet(index.view, owner)) - Interval(h, limit)
      ensures Interval(h, limit) <= old(FreeSet(index.view, owner))
      ensures bytesDropped == old(bytesDropped) + HBLKSIZE * (limit - h)
    {
      ListedFree(index.view, owner, fl[..], fb[..], lists, h, i);
      var total := index.Hdr(h).hdr.sz;
      limit := h + total / HBLKSIZE;
      largeFree := largeFree - total;
      bytesDropped := bytesDropped + total;
      Lose(h, limit, i, j);
    }

    // ---------------------------------------------------------------------------- searching a free list

    ghost function Rules(): Policy
      reads this`blLimit, bl.oldNormal, bl.incompleteNormal, bl.oldStack, bl.incompleteStack
    {
      Policy(bl.Contents(), blLimit)
    }

    ghost function Snap(): Snapshot
      reads this`owner, this`lists, index
    {
      Snapshot(index.view, lists, FreeSet(index.view, owner))
    }

    /** The scan for the first clean start in the free block h. */
    method FirstClean(h: int, last: int, eff: int) returns (start: int)
      requires bl.Valid() && 0 < h <= last && eff >= HBLKSIZE && eff % HBLKSIZE == 0
      ensures start <= last ==>
        h <= start && BlackList.Clean(bl.Contents(), start, eff / HBLKSIZE) && AllBlack(bl.Contents(), h, start - 1, eff)
      ensures start > last ==> AllBlack(bl.Contents(), h, last, eff)
    {
      start := h;
      while start <= last
        invariant h <= start && AllBlack(bl.Contents(), h, start - 1, eff)
        decreases last - start
      {
        var r := bl.IsBlackListed(start, eff);
        if r == 0 {
          return;
        }
        start := r;
      }
    }

    /** Is the block next obviously better than a larger block of avail bytes before it? */
    method NextIsBetter(next: int, avail: int, q: Request) returns (better: bool)
      requires bl.Valid() && index.Valid() && WellSized(q) == true && q.maySplit
      requires next == 0 || (next > 0 && IsHead(index.view, next))
      ensures better ==> next != 0 && GoodNext(Rules(), q, next, index.view[next].hdr.sz)
    {
      if next == 0 {
        return false;
      }
      var nextSize := index.Hdr(next).hdr.sz;
      if nextSize < avail && nextSize >= q.need {
        var black := bl.IsBlackListed(next, q.need);
        return black == 0;
      }
      return false;
    }

    /** Look for a place in the free block h of avail bytes for a request that avoids black-listed blocks. */
    method FindPlace(h: int, avail: int, q: Request) returns (d: Decision)
      requires bl.Valid() && h > 0 && WellSized(q) == true && avail % HBLKSIZE == 0 && avail >= q.need
      requires Consults(q.kind, q.need) && (avail == q.need || q.maySplit)
      ensures d.Fit? ==> Usable(Rules(), q, h, avail) && PlacedAt(Rules(), q, h, avail, d.start)
      ensures !d.Fit? ==> !Usable(Rules(), Splitting(q), h, avail)
      ensures d.Blocked? ==> q.need == HBLKSIZE && AllBlack(Rules().black, h, h + avail / HBLKSIZE - 1, HBLKSIZE)
    {
      var last := h + (avail - q.need) / HBLKSIZE;
      var start := FirstClean(h, last, EffSize(q.need, q.flags));
      if avail - (start - h) * HBLKSIZE >= q.need {
        assert start <= last;
        return Fit(start);
      } else if q.need > blLimit && avail - q.need > blLimit {
        return Fit(h);
      } else if q.need == HBLKSIZE {
        assert last == h + avail / HBLKSIZE - 1;
        return Blocked;
      }
      return Pass;
    }

    /** The body of the search loop of GC_allochblk_nth, up to the point where the heap is changed. */
    method Consider(h: int, q: Request) returns (d: Decision)
      requires bl.Valid() && index.Valid() && h > 0 && IsHead(index.view, h)
      requires WellSized(q) == true && index.view[h].hdr.sz % HBLKSIZE == 0
      requires var next := index.view[h].hdr.next; next == 0 || (next > 0 && IsHead(index.view, next))
      ensures var size := index.view[h].hdr.sz;
        d.Fit? ==> Usable(Rules(), q, h, size) && PlacedAt(Rules(), q, h, size, d.start)
      ensures var size, next := index.view[h].hdr.sz, index.view[h].hdr.next; d.Pass? ==>
        || !Usable(Rules(), q, h, size)
        || (next != 0 && GoodNext(Rules(), q, next, index.view[next].hdr.sz))
      ensures var size := index.view[h].hdr.sz; d.Blocked? ==>
        && !Usable(Rules(), Splitting(q), h, size)
        && q.need == HBLKSIZE && Consults(q.kind, q.need)
        && AllBlack(Rules().black, h, h + Len(index.view[h].hdr) - 1, HBLKSIZE)
    {
      var hhdr := index.Hdr(h).hdr;
      if hhdr.sz < q.need {
        return Pass;
      }
      if hhdr.sz != q.need {
        if !q.maySplit {
          return Pass;
        }
        var better := NextIsBetter(hhdr.next, hhdr.sz, q);
        if better {
          return Pass;
        }
      }
      if !Consults(q.kind, q.need) {
        return Fit(h);
      }
      d := FindPlace(h, hhdr.sz, q);
    }

    /** Make start the head of a listed free block, splitting the block h around it if need be. */
    method SplitOff(h: int, start: int, i: int, ghost j: nat) returns (ghost j2: nat)
      requires Consistent() == true && 0 <= i < N_LISTS && j < |lists[i]| && lists[i][j] == h
      requires FreeHead(index.view, h) && h <= start && (start - h) * HBLKSIZE < index.view[h].hdr.sz
      modifies this`lists, this`owner, index, fl, fb
      ensures ChosenBlock(start) == true && j2 < |lists[i]| && lists[i][j2] == start
      ensures IsHead(index.view, start)
      ensures index.view[start].hdr.sz == old(index.view)[h].hdr.sz - (start - h) * HBLKSIZE
      ensures owner.Keys == old(owner.Keys) && FreeSet(index.view, owner) == old(FreeSet(index.view, owner))
      ensures SameUsed(old(index.view), index.view) == true
    {
      ListedFree(index.view, owner, fl[..], fb[..], lists, h, i);
      if start != h {
        j2 := SplitBlock(h, start, i, j);
      } else {
        SoundChosen(index.view, owner, fl[..], fb[..], lists, h);
        j2 := j;
      }
    }

    /** Hand out need bytes at start, inside the free block h at place j of list i: split off what lies before,
        give back what lies behind, and set the block up. */
    method Carve(h: int, start: int, i: int, ghost j: nat, sz: int, need: int, kind: int, flags: int)
      requires Consistent() == true && 0 <= i < N_LISTS && j < |lists[i]| && lists[i][j] == h
      requires FreeHead(index.view, h) && sz > 0 && need == HBLKSIZE * ObjSzToBlocks(sz)
      requires h <= start && (start - h) * HBLKSIZE + need <= index.view[h].hdr.sz
      modifies this`lists, this`owner, this`largeFree, index, fl, fb
      ensures Consistent() == true && owner.Keys == old(owner.Keys)
      ensures FreeSet(index.view, owner)
           == old(FreeSet(index.view, owner)) - Interval(start, start + ObjSzToBlocks(sz))
      ensures Interval(start, start + ObjSzToBlocks(sz)) <= old(FreeSet(index.view, owner))
      ensures Granted(old(index.view), index.view, start) == true
      ensures FreshHeader(index.view, start, sz, kind, flags) == true
    {
      ghost var v := index.view;
      WholeBytes(sz);
      ghost var j2 := SplitOff(h, start, i, j);
      ghost var v1 := index.view;
      GetFirstPart(start, need, i, j2);
      ghost var v2 := index.view;
      InstallUsed(start, sz, need, kind, flags);
      GrantedChain(v, v1, v2, index.view, start);
    }

    /** Since s0 only the blocks of dropped, which were free, have been dropped. */
    ghost predicate OnlyDropped(s0: Snapshot, dropped: set<int>)
      reads this`owner, this`lists, index
    {
      DroppedSoFar(s0.v, s0.lists, s0.free, dropped, index.view, lists, FreeSet(index.view, owner)) == true
    }

    /** The block at place j of list n, ready to be considered. */
    lemma AtPlace(n: int, j: int)
      requires Ready() == true && 0 <= n < N_LISTS && 0 <= j < |lists[n]|
      ensures var h := lists[n][j];
        && h > 0 && FreeHead(index.view, h) && index.view[h].hdr.sz % HBLKSIZE == 0 && index.view[h].hdr.sz > 0
        && index.view[h].hdr.next == Link(lists[n], j + 1) && index.view[h].hdr.prev == Link(lists[n], j - 1)
      ensures j + 1 < |lists[n]| ==> lists[n][j + 1] > 0 && FreeHead(index.view, lists[n][j + 1])
    {
      assert OneListOk(index.view, fl[..][n], fb[..][n], lists[n]);
      assert NodeOk(index.view, lists[n], j);
      ListedFree(index.view, owner, fl[..], fb[..], lists, lists[n][j], n);
      if j + 1 < |lists[n]| {
        ListedFree(index.view, owner, fl[..], fb[..], lists, lists[n][j + 1], n);
      }
    }

    lemma FirstLink(n: int)
      requires Ready() == true && 0 <= n < N_LISTS
      ensures fl.Length == N_LISTS && fl[n] == Link(lists[n], 0)
    {
      assert OneListOk(index.view, fl[..][n], fb[..][n], lists[n]);
    }

    lemma AllListedFree(n: int)
      requires Ready() == true && 0 <= n < N_LISTS
      ensures forall x | x in lists[n] :: FreeHead(index.view, x)
    {
      forall x | x in lists[n] ensures FreeHead(index.view, x) {
        ListedFree(index.view, owner, fl[..], fb[..], lists, x, n);
      }
    }

    /** Drop the black-listed block h and record it. */
    method DropAndNote(h: int, ghost limit: int, n: int, ghost j: nat, ghost s0: Snapshot, ghost dropped: set<int>)
      returns (ghost dropped1: set<int>)
      requires Consistent() == true && 0 <= n < N_LISTS && j < |lists[n]| && lists[n][j] == h
      requires OnlyDropped(s0, dropped) == true
      requires FreeHead(index.view, h) && limit == h + Len(index.view[h].hdr)
      modifies this`lists, this`owner, this`largeFree, this`bytesDropped, index, fl, fb
      ensures Consistent() == true && owner.Keys == old(owner.Keys)
      ensures lists == Remove(old(lists), n, j)
      ensures Dropping(old(index.view), Interval(h, limit), index.view) == true
      ensures OnlyDropped(s0, dropped1) == true && Taken(dropped1, Interval(h, limit), dropped) == true
      ensures |dropped1| == |dropped| + (limit - h)
      ensures bytesDropped == old(bytesDropped) + HBLKSIZE * (limit - h)
    {
      ghost var v, lists1, free := index.view, lists, FreeSet(index.view, owner);
      var end := DropBlock(h, n, j);
      assert end == limit;
      dropped1 := NoteDrop(s0.v, s0.lists, s0.free, dropped, v, lists1, free, h, limit, index.view, lists,
                           FreeSet(index.view, owner));
    }

    /** Every fourth completely black-listed block is dropped, unless leaks are being looked for. */
    method CountBlocked() returns (drop: bool)
      modifies this`dropCount
      ensures drop ==> !findLeak
      ensures dropCount == if findLeak then old(dropCount) else old(dropCount) + 1
      ensures !findLeak ==> (drop <==> dropCount % 4 == 0)
    {
      drop := false;
      if !findLeak {
        dropCount := dropCount + 1;
        drop := dropCount % 4 == 0;
      }
    }

    /** The block behind place j - 1 of list n, given the block there. */
    method Resume(prev: int, n: int, ghost j: nat) returns (h: int)
      requires Ready() == true && 0 <= n < N_LISTS && j <= |lists[n]| && prev == Link(lists[n], j - 1)
      ensures h == Link(lists[n], j)
    {
      FirstLink(n);
      if j > 0 {
        AtPlace(n, j - 1);
      }
      if prev == 0 {
        return fl[n];
      }
      return index.Hdr(prev).hdr.next;
    }

    /** Drop the unusable block h at place j of list n and find the block to go on with. */
    method GiveUp(h: int, ghost limit: int, n: int, ghost j: nat, ghost s0: Snapshot, ghost dropped: set<int>,
                  ghost p: Policy, ghost q: Request)
      returns (h': int, ghost dropped1: set<int>)
      requires Consistent() == true && 0 <= n < N_LISTS && j < |lists[n]| && lists[n][j] == h
      requires OnlyDropped(s0, dropped) == true
      requires WellSized(q) == true && Passed(p, q, index.view, lists[n], j) == true && NoUse(p, q, index.view, h) == true
      requires FreeHead(index.view, h) && limit == h + Len(index.view[h].hdr)
      modifies this`lists, this`owner, this`largeFree, this`bytesDropped, index, fl, fb
      ensures Consistent() == true && owner.Keys == old(owner.Keys)
      ensures |lists[n]| == |old(lists)[n]| - 1 && j <= |lists[n]| && h' == Link(lists[n], j)
      ensures OnlyDropped(s0, dropped1) == true && Taken(dropped1, Interval(h, limit), dropped) == true
      ensures bytesDropped - HBLKSIZE * |dropped1| == old(bytesDropped) - HBLKSIZE * |dropped|
      ensures Passed(p, q, index.view, lists[n], j) == true
    {
      AtPlace(n, j);
      var prev := index.Hdr(h).hdr.prev;
      ghost var v, lists0 := index.view, lists;
      dropped1 := DropAndNote(h, limit, n, j, s0, dropped);
      DropPassed(v, lists0, n, j, Interval(h, limit), p, q);
      h' := Resume(prev, n, j);
    }

    lemma DropPassed(v: View, lists0: seq<seq<int>>, n: int, j: nat, d: set<int>, p: Policy, q: Request)
      requires Ready() == true && 0 <= n < N_LISTS == |lists0| && j < |lists0[n]| && lists == Remove(lists0, n, j)
      requires Dropping(v, d, index.view) == true && WellSized(q) == true
      requires Passed(p, q, v, lists0[n], j) == true && NoUse(p, q, v, lists0[n][j]) == true
      ensures Passed(p, q, index.view, lists[n], j) == true
      ensures |lists[n]| == |lists0[n]| - 1 && j <= |lists[n]| && (j > 0 ==> lists[n][j - 1] == lists0[n][j - 1])
    {
      var s := lists0[n];
      forall k | 0 <= k < j ensures FreeHead(index.view, s[k]) {
        assert lists[n][k] == s[k];
        AtPlace(n, k);
      }
      PassedAfterDrop(p, q, v, s, j, d, index.view);
    }

    /** The state of the search of list n at place j, where block h is. */
    ghost predicate Searching(p: Policy, q: Request, s0: Snapshot, dropped: set<int>, n: int, j: nat, h: int)
      reads this`owner, this`lists, this`largeFree, this`findLeak, index, fl, fb
    {
      && Consistent() == true && WellSized(q)
      && 0 <= n < N_LISTS == |s0.lists| && j <= |lists[n]| && h == Link(lists[n], j)
      && OnlyDropped(s0, dropped) == true
      && Passed(p, q, index.view, lists[n], j) == true
      && Notes(p, q, s0.v, s0.lists[n], dropped, findLeak) == true
    }

    /** Go on behind the block h, which is of no use or worse than the one after it. */
    method Skip(h: int, n: int, ghost j: nat, ghost p: Policy, q: Request, ghost s0: Snapshot, ghost dropped: set<int>)
      returns (h': int)
      requires Searching(p, q, s0, dropped, n, j, h) == true && h != 0 && IsHead(index.view, h)
      requires var next := index.view[h].hdr.next;
        || NoUse(p, q, index.view, h)
        || (next != 0 && IsHead(index.view, next) && GoodNext(p, q, next, index.view[next].hdr.sz))
      ensures Searching(p, q, s0, dropped, n, j + 1, h') == true
      ensures j < |lists[n]|
    {
      AtPlace(n, j);
      PassOne(p, q, index.view, lists[n], j);
      return index.Hdr(h).hdr.next;
    }

    /** Drop the completely black-listed block h and go on. */
    method DropAndGo(h: int, n: int, ghost j: nat, ghost p: Policy, q: Request, ghost s0: Snapshot,
                     ghost dropped: set<int>)
      returns (h': int, ghost dropped': set<int>)
      requires Searching(p, q, s0, dropped, n, j, h) == true && h != 0 && !findLeak
      requires IsHead(index.view, h) && NoUse(p, Splitting(q), index.view, h) == true
      requires AllBlack(p.black, h, h + Len(index.view[h].hdr) - 1, HBLKSIZE) == true
      modifies this`lists, this`owner, this`largeFree, this`bytesDropped, index, fl, fb
      ensures Searching(p, q, s0, dropped', n, j, h') == true
      ensures |lists[n]| == |old(lists)[n]| - 1 && owner.Keys == old(owner.Keys)
      ensures bytesDropped - HBLKSIZE * |dropped'| == old(bytesDropped) - HBLKSIZE * |dropped|
    {
      SearchingGives(p, q, s0, dropped, n, j, h);
      ghost var limit := h + Len(index.view[h].hdr);
      OneFreeHead(index.view, owner, h);
      ghost var v := index.view;
      h', dropped' := GiveUp(h, limit, n, j, s0, dropped, p, q);
      NotesAfterDrop(p, q, s0.v, s0.lists[n], dropped, v, h, limit, dropped');
    }

    lemma SearchingGives(p: Policy, q: Request, s0: Snapshot, dropped: set<int>, n: int, j: nat, h: int)
      requires Searching(p, q, s0, dropped, n, j, h) == true && h != 0
      ensures j < |lists[n]| && lists[n][j] == h && Consistent() == true && FreeHead(index.view, h)
      ensures Dropping(s0.v, dropped, index.view) == true
    {
      AtPlace(n, j);
    }

    lemma SearchBegins(n: int, p: Policy, q: Request)
      requires Consistent() == true && WellSized(q) == true && 0 <= n < N_LISTS
      ensures fl.Length == N_LISTS && Searching(p, q, Snap(), {}, n, 0, fl[n]) == true
    {
      FirstLink(n);
      NothingDropped(index.view, lists, FreeSet(index.view, owner));
      AllListedFree(n);
    }

    /** At the end of the list nothing on it was usable. */
    lemma SearchEnds(p: Policy, q: Request, s0: Snapshot, dropped: set<int>, n: int, j: nat)
      requires Searching(p, q, s0, dropped, n, j, 0) == true
      ensures forall x | x in s0.lists[n] :: NoUse(p, q, s0.v, x)
    {
      if j < |lists[n]| {
        AtPlace(n, j);
      }
      AllListedFree(n);
      NoneUsable(p, q, s0, dropped, Snap(), n, findLeak);
    }

    /** The rest of the loop body: drop the block, or go on behind it. */
    method Advance(d: Decision, h: int, n: int, ghost j: nat, ghost p: Policy, q: Request, ghost s0: Snapshot,
                   ghost dropped: set<int>)
      returns (h': int, ghost j': nat, ghost dropped': set<int>)
      requires Searching(p, q, s0, dropped, n, j, h) == true && h != 0 && IsHead(index.view, h) && !d.Fit?
      requires var next := index.view[h].hdr.next;
        || NoUse(p, q, index.view, h)
        || (next != 0 && IsHead(index.view, next) && GoodNext(p, q, next, index.view[next].hdr.sz))
      requires d.Blocked? ==>
        && NoUse(p, Splitting(q), index.view, h) == true
        && AllBlack(p.black, h, h + Len(index.view[h].hdr) - 1, HBLKSIZE) == true
      modifies this`lists, this`owner, this`largeFree, this`bytesDropped, this`dropCount, index, fl, fb
      ensures Searching(p, q, s0, dropped', n, j', h') == true
      ensures |lists[n]| - j' < |old(lists)[n]| - j && owner.Keys == old(owner.Keys)
      ensures bytesDropped - HBLKSIZE * |dropped'| == old(bytesDropped) - HBLKSIZE * |dropped|
    {
      if d.Blocked? {
        var drop := CountBlocked();
        if drop {
          h', dropped' := DropAndGo(h, n, j, p, q, s0, dropped);
          j' := j;
          return;
        }
      }
      h' := Skip(h, n, j, p, q, s0, dropped);
      j', dropped' := j + 1, dropped;
    }

    /** The block h was found for the request at place j of list n; the object goes to start. */
    ghost predicate Fits(p: Policy, q: Request, n: int, j: nat, h: int, start: int)
      reads this`lists, index
    {
      && 0 <= n < N_LISTS == |lists| && j < |lists[n]| && lists[n][j] == h && FreeHead(index.view, h)
      && Usable(p, q, h, index.view[h].hdr.sz)
      && PlacedAt(p, q, h, index.view[h].hdr.sz, start)
    }

    /** The search loop of GC_allochblk_nth over list n.  Where the source calls itself after dropping the first
        block of the list, the loop goes on from the new first block. */
    method FindBlock(q: Request, n: int) returns (h: int, start: int, ghost j: nat, ghost dropped: set<int>)
      requires bl.Valid() && Consistent() == true && 0 <= n < N_LISTS && WellSized(q) == true
      modifies this`lists, this`owner, this`largeFree, this`bytesDropped, this`dropCount, index, fl, fb
      ensures Consistent() == true && owner.Keys == old(owner.Keys) && Rules() == old(Rules())
      ensures OnlyDropped(old(Snap()), dropped) == true
      ensures BlackAll(Rules().black, dropped) == true && (findLeak ==> dropped == {})
      ensures bytesDropped == old(bytesDropped) + HBLKSIZE * |dropped|
      ensures NoneUseful(Rules(), Splitting(q), old(index.view), dropped) == true
      ensures h == 0 ==> forall x | x in old(lists)[n] :: NoUse(Rules(), q, old(index.view), x)
      ensures h != 0 ==> Fits(Rules(), q, n, j, h, start) == true
    {
      ghost var s0, p := Snap(), Rules();
      SearchBegins(n, p, q);
      h, j, start, dropped := fl[n], 0, 0, {};
      while h != 0
        invariant Searching(p, q, s0, dropped, n, j, h) == true
        invariant owner.Keys == old(owner.Keys) && Rules() == p
        invariant bytesDropped == old(bytesDropped) + HBLKSIZE * |dropped|
        decreases |lists[n]| - j
      {
        AtPlace(n, j);
        var d := Consider(h, q);
        if d.Fit? {
          start := d.start;
          return;
        }
        h, j, dropped := Advance(d, h, n, j, p, q, s0, dropped);
      }
      SearchEnds(p, q, s0, dropped, n, j);
    }

    lemma FitsChoice(p: Policy, q: Request, s0: Snapshot, dropped: set<int>, n: int, j: nat, h: int, start: int)
      requires Consistent() == true && OnlyDropped(s0, dropped) == true && n < |s0.lists|
      requires Fits(p, q, n, j, h, start) == true && WellSized(q) == true
      ensures Choice(p, q, s0.v, s0.lists[n], h, start) == true && 0 <= n < N_LISTS && j < |lists[n]| && lists[n][j] == h
      ensures FreeHead(index.view, h) == true && 0 < h <= start && (start - h) * HBLKSIZE + q.need <= index.view[h].hdr.sz
    {
      AtPlace(n, j);
      PlacedInside(p, q, h, index.view[h].hdr.sz, start);
      FoundWasThere(s0.v, s0.lists, s0.free, dropped, index.view, lists, FreeSet(index.view, owner), n, h);
    }

    /** Hand out the block for the request, when others were dropped before. */
    method CarveAfterDrops(h: int, start: int, n: int, ghost j: nat, sz: int, q: Request, ghost s0: Snapshot,
                           ghost dropped: set<int>)
      requires Consistent() == true && OnlyDropped(s0, dropped) == true && sz > 0 && start > 0
      requires 0 <= n < N_LISTS && j < |lists[n]| && lists[n][j] == h && q.need == HBLKSIZE * ObjSzToBlocks(sz)
      requires FreeHead(index.view, h) == true && h <= start && (start - h) * HBLKSIZE + q.need <= index.view[h].hdr.sz
      modifies this`lists, this`owner, this`largeFree, index, fl, fb
      ensures Consistent() == true && owner.Keys == old(owner.Keys)
      ensures Served(s0.v, s0.free, dropped, start, ObjSzToBlocks(sz), index.view, FreeSet(index.view, owner)) == true
      ensures FreshHeader(index.view, start, sz, q.kind, q.flags) == true
    {
      ghost var v1, lists1, free1 := index.view, lists, FreeSet(index.view, owner);
      Carve(h, start, n, j, sz, q.need, q.kind, q.flags);
      ServedAfterDrops(s0.v, s0.lists, s0.free, dropped, v1, lists1, free1, start, ObjSzToBlocks(sz), index.view,
                       FreeSet(index.view, owner));
    }

    /** The end of GC_allochblk_nth, after the search. */
    method Serve(h: int, start: int, n: int, ghost j: nat, sz: int, q: Request, ghost p: Policy,
                 ghost s0: Snapshot, ghost dropped: set<int>)
      requires Consistent() == true && OnlyDropped(s0, dropped) == true && sz > 0
      requires q.need == HBLKSIZE * ObjSzToBlocks(sz)
      requires Fits(p, q, n, j, h, start) == true && n < |s0.lists|
      modifies this`lists, this`owner, this`largeFree, index, fl, fb
      ensures Consistent() == true && owner.Keys == old(owner.Keys)
      ensures bytesDropped == old(bytesDropped) && findLeak == old(findLeak) && Rules() == old(Rules())
      ensures Choice(p, q, s0.v, s0.lists[n], h, start) == true && start > 0
      ensures Served(s0.v, s0.free, dropped, start, ObjSzToBlocks(sz), index.view, FreeSet(index.view, owner)) == true
      ensures FreshHeader(index.view, start, sz, q.kind, q.flags) == true
    {
      WholeBytes(sz);
      FitsChoice(p, q, s0, dropped, n, j, h, start);
      CarveAfterDrops(h, start, n, j, sz, q, s0, dropped);
    }

    /** GC_allochblk_nth: serve the request from a block of list n, if one of them can serve it. */
    method AllochblkNth(sz: int, q: Request, n: int) returns (r: int, ghost from: int, ghost dropped: set<int>)
      requires bl.Valid() && Consistent() == true && 0 <= n < N_LISTS && sz > 0
      requires q.need == HBLKSIZE * ObjSzToBlocks(sz)
      modifies this`lists, this`owner, this`largeFree, this`bytesDropped, this`dropCount, index, fl, fb
      ensures Consistent() == true && owner.Keys == old(owner.Keys) && Rules() == old(Rules())
      ensures BlackAll(Rules().black, dropped) == true && (findLeak ==> dropped == {})
      ensures bytesDropped == old(bytesDropped) + HBLKSIZE * |dropped|
      ensures NoneUseful(Rules(), Splitting(q), old(index.view), dropped) == true
      ensures r == 0 ==>
        && OnlyDropped(old(Snap()), dropped) == true
        && forall x | x in old(lists)[n] :: NoUse(Rules(), q, old(index.view), x)
      ensures r != 0 ==>
        && Choice(Rules(), q, old(index.view), old(lists)[n], from, r) == true
        && Served(old(index.view), old(FreeSet(index.view, owner)), dropped, r, ObjSzToBlocks(sz),
                  index.view, FreeSet(index.view, owner)) == true
        && FreshHeader(index.view, r, sz, q.kind, q.flags) == true
    {
      WholeBytes(sz);
      ghost var s0 := Snap();
      var h, start;
      ghost var j;
      h, start, j, dropped := FindBlock(q, n);
      from := h;
      if h == 0 {
        return 0, from, dropped;
      }
      Serve(h, start, n, j, sz, q, Rules(), s0, dropped);
      r := start;
    }

    lemma SnapListed()
      requires Ready() == true
      ensures WellListed(Snap()) == true && |lists| == N_LISTS
    {
      var v := index.view;
      forall x {:trigger FreeHead(v, x)} | FreeHead(v, x)
        ensures v[x].hdr.sz == HBLKSIZE * Len(v[x].hdr) && Len(v[x].hdr) > 0 && x in lists[BinOf(v[x].hdr)]
      {
        assert x in lists[HblkFlFromBlocks(Len(v[x].hdr))];
        ListedFree(v, owner, fl[..], fb[..], lists, x, HblkFlFromBlocks(Len(v[x].hdr)));
      }
    }

    /** GC_enough_large_bytes_left: the highest list from which on the free bytes, with the large objects in use,
        cover the largest amount ever in use. */
    method EnoughLargeBytesLeft(largeAllocd: int, maxLargeAllocd: int) returns (n: int)
      requires fb.Length == N_LISTS
      ensures 0 <= n <= N_HBLK_FLS
      ensures n > 0 ==> largeAllocd + SumFrom(fb[..], n) >= maxLargeAllocd
      ensures forall m | n < m <= N_HBLK_FLS :: largeAllocd + SumFrom(fb[..], m) < maxLargeAllocd
    {
      var bytes := largeAllocd;
      n := N_HBLK_FLS;
      while n >= 0
        invariant -1 <= n <= N_HBLK_FLS && bytes == largeAllocd + SumFrom(fb[..], n + 1)
        invariant forall m | n < m <= N_HBLK_FLS :: largeAllocd + SumFrom(fb[..], m) < maxLargeAllocd
      {
        bytes := bytes + fb[n];
        if bytes >= maxLargeAllocd {
          return;
        }
        n := n - 1;
      }
      return 0;
    }

    /** The loop of GC_allochblk over the lists from n0 on that may be split. */
    method TryLists(sz: int, q: Request, n0: int, splitLimit: int, ghost p: Policy, ghost s0: Snapshot,
                    ghost d0: set<int>)
      returns (r: int, ghost from: int, ghost dropped: set<int>)
      requires bl.Valid() && Consistent() == true && sz > 0 && q.need == HBLKSIZE * ObjSzToBlocks(sz) && q.maySplit
      requires 0 <= n0 && splitLimit <= N_HBLK_FLS && p == Rules() && WellListed(s0) == true
      requires Failing(p, q, s0, d0, Snap(), n0, findLeak) == true
      modifies this`lists, this`owner, this`largeFree, this`bytesDropped, this`dropCount, index, fl, fb
      ensures Consistent() == true && owner.Keys == old(owner.Keys) && Rules() == p
      ensures bytesDropped - HBLKSIZE * |dropped| == old(bytesDropped) - HBLKSIZE * |d0|
      ensures r == 0 ==> exists n :: n > splitLimit && Failing(p, q, s0, dropped, Snap(), n, findLeak)
      ensures r != 0 ==> Succeeded(p, q, s0, dropped, from, r, ObjSzToBlocks(sz), index.view,
                                   FreeSet(index.view, owner), findLeak) == true
                         && FreshHeader(index.view, r, sz, q.kind, q.flags) == true
    {
      WholeBytes(sz);
      var n := n0;
      r, from, dropped := 0, 0, d0;
      while n <= splitLimit
        invariant Consistent() == true && owner.Keys == old(owner.Keys) && Rules() == p && n0 <= n
        invariant bytesDropped - HBLKSIZE * |dropped| == old(bytesDropped) - HBLKSIZE * |d0|
        invariant Failing(p, q, s0, dropped, Snap(), n, findLeak) == true
      {
        ghost var s1, d1 := Snap(), {};
        SnapListed();
        r, from, d1 := AllochblkNth(sz, q, n);
        if r != 0 {
          SucceededAfter(p, q, s0, dropped, s1, n, d1, from, r, ObjSzToBlocks(sz), index.view,
                         FreeSet(index.view, owner), findLeak);
          dropped := dropped + d1;
          return;
        }
        FailingNext(p, q, s0, dropped, s1, n, d1, Snap(), findLeak);
        dropped := dropped + d1;
        n := n + 1;
      }
    }

    /** The highest list whose blocks GC_allochblk will split.  useMore stands for the tests that call for the use of
        more of the heap, finalizersFreedMuch for GC_finalizer_bytes_freed > GC_heapsize / 16. */
    method SplitLimit(useMore: bool, finalizersFreedMuch: bool, largeAllocd: int, maxLargeAllocd: int)
      returns (limit: int)
      requires fb.Length == N_LISTS
      ensures 0 <= limit <= N_HBLK_FLS
      ensures useMore ==> limit == N_HBLK_FLS
      ensures !useMore && finalizersFreedMuch ==> limit == 0
    {
      if useMore {
        return N_HBLK_FLS;
      } else if finalizersFreedMuch {
        return 0;
      }
      limit := EnoughLargeBytesLeft(largeAllocd, maxLargeAllocd);
    }

    /** GC_allochblk: first look for a block of exactly the right size, then split a larger one.  r is 0 or the new
        block, which was carved out of the free block from; limit is the last list that was searched. */
    method Allochblk(sz: int, kind: int, flags: int, useMore: bool, finalizersFreedMuch: bool, largeAllocd: int,
                     maxLargeAllocd: int)
      returns (r: int, ghost from: int, ghost dropped: set<int>, limit: int)
      requires bl.Valid() && Consistent() == true && sz > 0
      modifies this`lists, this`owner, this`largeFree, this`bytesDropped, this`dropCount, index, fl, fb
      ensures Consistent() == true && owner.Keys == old(owner.Keys)
      ensures bytesDropped == old(bytesDropped) + HBLKSIZE * |dropped|
      ensures useMore ==> limit == N_HBLK_FLS
      ensures var q := Request(HBLKSIZE * ObjSzToBlocks(sz), kind, flags, true);
        && (r == 0 ==> DropsOnly(old(Snap()), dropped, Snap()) == true)
        && (r == 0 && limit == N_HBLK_FLS ==>
              && (forall x | FreeHead(old(index.view), x) :: NoUse(old(Rules()), q, old(index.view), x))
              && (AllClean(old(Rules()).black) ==> AllTooSmall(old(index.view), q.need) && dropped == {}))
        && (r != 0 ==>
              && Succeeded(old(Rules()), q, old(Snap()), dropped, from, r, ObjSzToBlocks(sz), index.view,
                           FreeSet(index.view, owner), findLeak) == true
              && FreshHeader(index.view, r, sz, kind, flags) == true)
    {
      WholeBytes(sz);
      SnapListed();
      ghost var s0, p := Snap(), Rules();
      var blocks := ObjSzToBlocks(sz);
      var q := Request(HBLKSIZE * blocks, kind, flags, true);
      var start := HblkFlFromBlocks(blocks);
      r, from, dropped := AllochblkNth(sz, q.(maySplit := false), start);
      limit := N_HBLK_FLS;
      if r != 0 {
        ExactServed(p, q, s0, start, dropped, from, r, blocks, index.view, FreeSet(index.view, owner), findLeak);
        return;
      }
      FailingFirst(p, q, s0, blocks, dropped, Snap(), findLeak);
      FirstLink(0);
      limit := SplitLimit(useMore, finalizersFreedMuch, largeAllocd, maxLargeAllocd);
      if start < UNIQUE_THRESHOLD {
        start := start + 1;
      }
      r, from, dropped := TryLists(sz, q, start, limit, p, s0, dropped);
      if r == 0 {
        ghost var n :| n > limit && Failing(p, q, s0, dropped, Snap(), n, findLeak);
        if limit == N_HBLK_FLS {
          FailedClean(p, q, s0, dropped, Snap(), n, findLeak);
        }
      }
    }

    // --------------------------------------------------------------------------------- growing the heap

    /** The assignments of GC_add_to_heap that make a used block of the new section. */
    method InstallSection(p: int, bytes: int, ghost end: int)
      requires Ready() == true && 0 < p < end && bytes == (end - p) * HBLKSIZE
      requires owner.Keys !! Interval(p, end)
      modifies this`owner, index
      ensures Releasable(p) == true && FreeSet(index.view, owner) == old(FreeSet(index.view, owner))
      ensures Taken(owner.Keys, Interval(p, end), old(owner.Keys)) == true && |owner.Keys| == |old(owner).Keys| + (end - p)
      ensures Granted(old(index.view), index.view, p) == true
      ensures IsHead(index.view, p) && p + Len(index.view[p].hdr) == end
    {
      var junk: Hdr := *;
      ghost var v, owner0 := index.view, owner;
      TakenFromOwner(owner, p, end);
      owner := AddedOwner(owner, p, end);
      WholeBlocks(end - p);
      ghost var phdr := junk.(sz := bytes, flags := 0, free := false);
      AddedSection(v, owner0, fl[..], fb[..], lists, p, end, phdr);
      InstallUnlisted(v, fl[..], fb[..], lists, p, Header(junk), Header(phdr));
      index.InstallHeader(p, junk);
      index.PutHdr(p, index.Hdr(p).hdr.(sz := bytes, flags := 0, free := false));
    }

    /** The rest of GC_add_to_heap, for a section that starts beyond block 1. */
    method GrowBy(p: int, bytes: int, ghost end: int)
      requires Valid() == true && 0 < p < end && bytes == (end - p) * HBLKSIZE && owner.Keys !! Interval(p, end)
      modifies this`lists, this`owner, this`largeFree, this`heapsize, index, fl, fb
      ensures Valid() == true && SameUsed(old(index.view), index.view) == true
      ensures Taken(owner.Keys, Interval(p, end), old(owner.Keys)) == true
      ensures Taken(FreeSet(index.view, owner), Interval(p, end), old(FreeSet(index.view, owner))) == true
    {
      ghost var c := |owner.Keys|;
      FreeSection(p, bytes, end);
      CountSection(bytes, c, end - p);
    }

    /** The new section becomes a used block, which is freed. */
    method FreeSection(p: int, bytes: int, ghost end: int)
      requires Consistent() == true && 0 < p < end && bytes == (end - p) * HBLKSIZE && owner.Keys !! Interval(p, end)
      modifies this`lists, this`owner, this`largeFree, index, fl, fb
      ensures Consistent() == true && |owner.Keys| == |old(owner.Keys)| + (end - p)
      ensures SameUsed(old(index.view), index.view) == true
      ensures Taken(owner.Keys, Interval(p, end), old(owner.Keys)) == true
      ensures Taken(FreeSet(index.view, owner), Interval(p, end), old(FreeSet(index.view, owner))) == true
    {
      ghost var v, free := index.view, FreeSet(index.view, owner);
      InstallSection(p, bytes, end);
      ghost var v1, d, free1 := index.view, Interval(p, p + Len(index.view[p].hdr)), FreeSet(index.view, owner);
      assert free1 == free;
      assert d == Interval(p, end);
      Freehblk(p);
      assert Taken(FreeSet(index.view, owner), d, free1) == true;
      GrantedReleased(v, v1, p, index.view);
    }

    /** The new section counts. */
    method CountSection(bytes: int, ghost c: int, ghost blocks: int)
      requires Consistent() == true && heapsize == HBLKSIZE * c && |owner.Keys| == c + blocks && bytes == blocks * HBLKSIZE
      modifies this`heapsize
      ensures Valid() == true
    {
      heapsize := heapsize + bytes;
    }

    /** The loop of GC_add_to_heap: blocks 0 and 1 are not used. */
    method SkipLow(p0: int, bytes0: int, ghost end: int) returns (p: int, bytes: int)
      requires 0 <= p0 < end && bytes0 == (end - p0) * HBLKSIZE
      ensures bytes == 0 ==> end <= 2
      ensures bytes != 0 ==> p == FirstUsable(p0) && p < end && bytes == (end - p) * HBLKSIZE
    {
      p, bytes := p0, bytes0;
      while p <= 1
        invariant p0 <= p < end && bytes == (end - p) * HBLKSIZE && p <= FirstUsable(p0)
        decreases bytes
      {
        p := p + 1;
        bytes := bytes - HBLKSIZE;
        if bytes == 0 {
          return;
        }
      }
    }

    /** GC_add_to_heap: the section becomes free memory, merged with free blocks next to it.  The section does not
        wrap around the end of the address space. */
    method AddToHeap(p0: int, bytes0: int, ghost end: int)
      requires Valid() == true && 0 <= p0 < end && bytes0 == (end - p0) * HBLKSIZE && owner.Keys !! Interval(p0, end)
      modifies this`lists, this`owner, this`largeFree, this`heapsize, index, fl, fb
      ensures Valid() == true && SameUsed(old(index.view), index.view) == true
      ensures Taken(owner.Keys, Interval(FirstUsable(p0), end), old(owner.Keys)) == true
      ensures Taken(FreeSet(index.view, owner), Interval(FirstUsable(p0), end), old(FreeSet(index.view, owner))) == true
    {
      var p, bytes := SkipLow(p0, bytes0, end);
      if bytes != 0 {
        GapWithin(p0, p, end);
        GrowBy(p, bytes, end);
      } else {
        NoneTaken(owner.Keys, FirstUsable(p0), end);
        NoneTaken(FreeSet(index.view, owner), FirstUsable(p0), end);
      }
    }

    lemma GapWithin(p0: int, p: int, end: int)
      requires owner.Keys !! Interval(p0, end) && p0 <= p
      ensures owner.Keys !! Interval(p, end)
    {
      assert Interval(p, end) <= Interval(p0, end);
    }

    /** Set the link of a used block. */
    method SetUsedNext(h: int, n: int)
      requires Consistent() == true && IsUsed(index.view, h)
      modifies index
      ensures Consistent() == true && FreeSet(index.view, owner) == old(FreeSet(index.view, owner))
      ensures index.view == old(index.view)[h := Header(old(index.view)[h].hdr.(next := n))]
      ensures index.order == old(index.order)
    {
      var hhdr := index.Hdr(h).hdr;
      UsedHdrChange(index.view, owner, fl[..], fb[..], lists, h, hhdr.(next := n));
      index.PutHdr(h, hhdr.(next := n));
    }

    /** Free a block that is in use and has its forwarding counts. */
    method FreeUsed(h: int)
      requires Consistent() == true && IsUsed(index.view, h)
      modifies this`lists, this`owner, this`largeFree, index, fl, fb
      ensures Consistent() == true && owner.Keys == old(owner.Keys)
      ensures Taken(FreeSet(index.view, owner), old(Interval(h, h + Len(index.view[h].hdr))), old(FreeSet(index.view, owner))) == true
      ensures Released(old(index.view), index.view, h) == true
      ensures index.order == old(index.order)
    {
      SoundBut(index.view, owner, fl[..], fb[..], lists, h);
      Freehblk(h);
    }
  }
}
