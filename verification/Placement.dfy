/** Which free block of a list serves a request, and where in it the object goes (GC_allochblk_nth). */
module Placement {
  import opened Sizes
  import opened Collections
  import opened HeaderIndex
  import opened HeapShape
  import opened HeapCarving
  import opened BlackList

  const MAX_BLACK_LIST_ALLOC := 2 * HBLKSIZE
  /** The flag IGNORE_OFF_PAGE is the lowest bit of the flags. */
  const IGNORE_OFF_PAGE := 1

  /** What is asked for: need bytes, a whole number of blocks.  maySplit allows the use of a larger block. */
  datatype Request = Request(need: int, kind: int, flags: int, maySplit: bool)

  /** The black lists and GC_black_list_spacing. */
  datatype Policy = Policy(black: Listing, limit: int)

  /** What the search of a free list does with one block of it. */
  datatype Decision = Pass | Fit(start: int) | Blocked

  predicate WellSized(q: Request) {
    q.need >= HBLKSIZE && q.need % HBLKSIZE == 0
  }

  /** Requests of this kind and size avoid black-listed blocks. */
  predicate Consults(kind: int, need: int) {
    kind / 2 * 2 != UNCOLLECTABLE && (kind != PTRFREE || need > MAX_BLACK_LIST_ALLOC)
  }

  /** How many bytes must be clean. */
  function EffSize(need: int, flags: int): int {
    if flags % 2 == IGNORE_OFF_PAGE then HBLKSIZE else need
  }

  /** All starts from h to last are black listed for eff bytes. */
  ghost predicate AllBlack(l: Listing, h: int, last: int, eff: int) {
    forall s | h <= s <= last :: !Clean(l, s, eff / HBLKSIZE)
  }

  /** A free block of size bytes at h can serve the request.  If all its starts are black listed this is still
      so for a request and a remainder both above the limit. */
  ghost predicate Usable(p: Policy, q: Request, h: int, size: int) {
    && size >= q.need
    && (size == q.need || q.maySplit)
    && (Consults(q.kind, q.need) ==>
          || !AllBlack(p.black, h, h + (size - q.need) / HBLKSIZE, EffSize(q.need, q.flags))
          || (q.need > p.limit && size - q.need > p.limit))
  }

  /** Where in the free block h the object goes: at the first clean start, if the black list matters and there
      is one, and else at the front. */
  ghost predicate PlacedAt(p: Policy, q: Request, h: int, size: int, start: int) {
    var last, eff := h + (size - q.need) / HBLKSIZE, EffSize(q.need, q.flags);
    if Consults(q.kind, q.need) && !AllBlack(p.black, h, last, eff)
    then h <= start <= last && Clean(p.black, start, eff / HBLKSIZE) && AllBlack(p.black, h, start - 1, eff)
    else start == h
  }

  lemma PlacedInside(p: Policy, q: Request, h: int, size: int, start: int)
    requires size % HBLKSIZE == 0 && WellSized(q)
    requires Usable(p, q, h, size) && PlacedAt(p, q, h, size, start)
    ensures h <= start && (start - h) * HBLKSIZE + q.need <= size
  {
  }

  /** The block is good for the request as it stands, and the search would take it. */
  ghost predicate GoodNext(p: Policy, q: Request, h: int, size: int) {
    q.maySplit && size >= q.need && Clean(p.black, h, q.need / HBLKSIZE)
  }

  lemma GoodIsUsable(p: Policy, q: Request, h: int, size: int)
    requires WellSized(q) && GoodNext(p, q, h, size)
    ensures Usable(p, q, h, size)
  {
    assert Clean(p.black, h, EffSize(q.need, q.flags) / HBLKSIZE);
  }

  /** Block h of the heap v cannot serve the request. */
  ghost predicate NoUse(p: Policy, q: Request, v: View, h: int) {
    IsHead(v, h) && !Usable(p, q, h, v[h].hdr.sz)
  }

  /** What the search knows at place j of list s: nothing before was of use, or the block here is. */
  ghost predicate Passed(p: Policy, q: Request, v: View, s: seq<int>, j: int) {
    0 <= j <= |s| &&
    (|| (forall k | 0 <= k < j :: NoUse(p, q, v, s[k]))
     || (j < |s| && IsHead(v, s[j]) && GoodNext(p, q, s[j], v[s[j]].hdr.sz)))
  }

  /** Passing over the block at place j. */
  lemma PassOne(p: Policy, q: Request, v: View, s: seq<int>, j: int)
    requires WellSized(q) && j < |s| && Passed(p, q, v, s, j)
    requires IsHead(v, s[j]) && (j + 1 < |s| ==> IsHead(v, s[j + 1]))
    requires || !Usable(p, q, s[j], v[s[j]].hdr.sz)
             || (j + 1 < |s| && GoodNext(p, q, s[j + 1], v[s[j + 1]].hdr.sz))
    ensures Passed(p, q, v, s, j + 1)
  {
    if !Usable(p, q, s[j], v[s[j]].hdr.sz) {
      if GoodNext(p, q, s[j], v[s[j]].hdr.sz) {
        GoodIsUsable(p, q, s[j], v[s[j]].hdr.sz);
      }
    }
  }

  /** Dropping the unusable block at place j leaves the blocks before it passed over. */
  lemma PassedAfterDrop(p: Policy, q: Request, v: View, s: seq<int>, j: int, d: set<int>, v2: View)
    requires WellSized(q) && j < |s| && Passed(p, q, v, s, j) && NoUse(p, q, v, s[j])
    requires Dropping(v, d, v2) && forall k | 0 <= k < j :: FreeHead(v2, s[k])
    ensures Passed(p, q, v2, s[..j] + s[j + 1..], j) == true
  {
    if GoodNext(p, q, s[j], v[s[j]].hdr.sz) {
      GoodIsUsable(p, q, s[j], v[s[j]].hdr.sz);
    }
    var s2 := s[..j] + s[j + 1..];
    forall k | 0 <= k < j ensures NoUse(p, q, v2, s2[k]) {
      assert NoUse(p, q, v, s[k]) && FreeHead(v2, s[k]);
    }
  }

  ghost predicate BlackAll(l: Listing, dropped: set<int>) {
    forall b | b in dropped :: !Clean(l, b, 1)
  }

  lemma BlackAllGrows(l: Listing, dropped: set<int>, h: int, limit: int)
    requires BlackAll(l, dropped) && AllBlack(l, h, limit - 1, HBLKSIZE)
    ensures BlackAll(l, dropped + Interval(h, limit))
  {
    forall b | b in dropped + Interval(h, limit) ensures !Clean(l, b, 1) {
      assert b in dropped || !Clean(l, b, HBLKSIZE / HBLKSIZE);
    }
  }

  /** The heap before the search: headers, lists and free blocks. */
  datatype Snapshot = Snapshot(v: View, lists: seq<seq<int>>, free: set<int>)

  /** Dropped blocks are black listed, and the free blocks among them were of no use; s lists free blocks. */
  ghost predicate Notes(p: Policy, q: Request, v: View, s: seq<int>, dropped: set<int>, findLeak: bool) {
    && BlackAll(p.black, dropped) == true && (findLeak ==> dropped == {})
    && (forall x | x in s :: FreeHead(v, x))
    && NoneUseful(p, Splitting(q), v, dropped) == true
  }

  /** The request, when larger blocks may be used as well. */
  function Splitting(q: Request): Request {
    q.(maySplit := true)
  }

  /** No free block that starts in d can serve the request. */
  ghost predicate NoneUseful(p: Policy, q: Request, v: View, d: set<int>) {
    forall x | x in d && FreeHead(v, x) :: NoUse(p, q, v, x)
  }

  lemma NotesAfterDrop(p: Policy, q: Request, v0: View, s: seq<int>, dropped: set<int>, v: View, h: int, limit: int,
                       dropped1: set<int>)
    requires Notes(p, q, v0, s, dropped, false) == true && Taken(dropped1, Interval(h, limit), dropped) == true
    requires Dropping(v0, dropped, v) == true && NoUse(p, Splitting(q), v, h) == true
    requires Alone(v, h, limit) == true && IsHead(v, h) && limit == h + Len(v[h].hdr)
    requires AllBlack(p.black, h, h + Len(v[h].hdr) - 1, HBLKSIZE) == true
    ensures Notes(p, q, v0, s, dropped1, false) == true
  {
    TakenIs(dropped1, Interval(h, limit), dropped);
    assert dropped1 == dropped + Interval(h, limit);
    BlackAllGrows(p.black, dropped, h, limit);
    forall x | x in dropped + Interval(h, limit) && FreeHead(v0, x) ensures NoUse(p, Splitting(q), v0, x) {
      assert x !in dropped ==> FreeHead(v, x) && x == h;
    }
  }

  /** At the end of list n nothing on it was usable. */
  lemma NoneUsable(p: Policy, q: Request, s0: Snapshot, dropped: set<int>, s1: Snapshot, n: int, findLeak: bool)
    requires 0 <= n < |s0.lists| == |s1.lists|
    requires DroppedSoFar(s0.v, s0.lists, s0.free, dropped, s1.v, s1.lists, s1.free) == true
    requires Passed(p, q, s1.v, s1.lists[n], |s1.lists[n]|) == true
    requires forall x | x in s1.lists[n] :: FreeHead(s1.v, x)
    requires Notes(p, q, s0.v, s0.lists[n], dropped, findLeak) == true
    ensures forall x | x in s0.lists[n] :: NoUse(p, q, s0.v, x)
  {
    assert NoneUseful(p, Splitting(q), s0.v, dropped);
    forall x | x in s0.lists[n] && x !in dropped ensures NoUse(p, q, s0.v, x) {
      assert x in s1.lists[n];
      assert NoUse(p, q, s1.v, x) && FreeHead(s1.v, x);
    }
  }

  /** The free block from, of list s, can serve the request, and r is where the black list wants the object. */
  ghost predicate Choice(p: Policy, q: Request, v: View, s: seq<int>, from: int, r: int) {
    && from in s && FreeHead(v, from)
    && Usable(p, q, from, v[from].hdr.sz)
    && PlacedAt(p, q, from, v[from].hdr.sz, r)
  }

  // ------------------------------------------------------------------------------ trying list after list

  /** Free blocks have whole blocks and are on the lists for their sizes. */
  ghost predicate WellListed(s: Snapshot) {
    && |s.lists| == N_LISTS
    && forall x {:trigger FreeHead(s.v, x)} | FreeHead(s.v, x) ::
         s.v[x].hdr.sz == HBLKSIZE * Len(s.v[x].hdr) && Len(s.v[x].hdr) > 0 && x in s.lists[BinOf(s.v[x].hdr)]
  }

  /** Neither the dropped blocks nor the free blocks of lists below n can serve the request. */
  ghost predicate TriedBelow(p: Policy, q: Request, s0: Snapshot, dropped: set<int>, n: int) {
    forall x {:trigger FreeHead(s0.v, x)} | FreeHead(s0.v, x) && s0.v[x].hdr.sz >= 0 &&
      (x in dropped || BinOf(s0.v[x].hdr) < n) :: NoUse(p, q, s0.v, x)
  }

  ghost predicate DropsOnly(s0: Snapshot, dropped: set<int>, s1: Snapshot) {
    DroppedSoFar(s0.v, s0.lists, s0.free, dropped, s1.v, s1.lists, s1.free)
  }

  lemma DropsTrans(s0: Snapshot, d: set<int>, s1: Snapshot, d1: set<int>, s2: Snapshot)
    requires DropsOnly(s0, d, s1) == true && DropsOnly(s1, d1, s2) == true
    ensures DropsOnly(s0, d + d1, s2) == true && |d + d1| == |d| + |d1|
  {
    DroppingTrans(s0.v, d, s1.v, d1, s2.v);
    ListsMinusTrans(s0.lists, d, s1.lists, d1, s2.lists);
    TakenIs(s0.free, d, s1.free);
    TakenIs(s1.free, d1, s2.free);
    NoteDropSets(s0.free, d, s1.free, d1, s2.free);
    TakenIs(s0.free, d + d1, s2.free);
  }

  lemma ServedTrans(s0: Snapshot, d: set<int>, s1: Snapshot, d1: set<int>, r: int, n: int, v: View, free: set<int>)
    requires DropsOnly(s0, d, s1) == true && Served(s1.v, s1.free, d1, r, n, v, free) == true && n > 0
    ensures Served(s0.v, s0.free, d + d1, r, n, v, free) == true && |d + d1| == |d| + |d1|
  {
    TakenIs(s0.free, d, s1.free);
    ServedTransFree(s0.free, d, s1.free, d1, Interval(r, r + n), free);
    ServedTransUsed(s0.v, d, s1.v, d1, r, v);
    assert r in Interval(r, r + n);
  }

  lemma ServedTransFree(free0: set<int>, d: set<int>, free1: set<int>, d1: set<int>, run: set<int>, free: set<int>)
    requires free1 == free0 - d && d <= free0
    requires d1 <= free1 && run <= free1 - d1 && free == free1 - d1 - run
    ensures d + d1 <= free0 && run <= free0 - (d + d1) && free == free0 - (d + d1) - run && |d + d1| == |d| + |d1|
  {
    NoteDropSets(free0, d, free1, d1, free1 - d1);
  }

  lemma ServedTransUsed(v0: View, d: set<int>, v1: View, d1: set<int>, r: int, v: View)
    requires Dropping(v0, d, v1)
    requires !IsUsed(v1, r) && r !in d1
    requires forall g :: IsUsed(v, g) <==> IsUsed(v1, g) || g in d1 || g == r
    requires forall g | IsUsed(v1, g) :: IsUsed(v, g) && v[g] == v1[g]
    requires forall g | g in d1 :: DroppedHead(v, g)
    ensures !IsUsed(v0, r) && r !in d
    ensures forall g :: IsUsed(v, g) <==> IsUsed(v0, g) || g in d + d1 || g == r
    ensures forall g | IsUsed(v0, g) :: IsUsed(v, g) && v[g] == v0[g]
    ensures forall g | g in d + d1 :: DroppedHead(v, g)
  {
    forall g | g in d ensures DroppedHead(v, g) && IsUsed(v1, g) {
      assert DroppedHead(v1, g);
    }
  }

  lemma ListTried(p: Policy, q: Request, s0: Snapshot, d: set<int>, s1: Snapshot, n: int, d1: set<int>)
    requires WellListed(s0) && 0 <= n < N_LISTS && DropsOnly(s0, d, s1) && TriedBelow(p, q, s0, d, n)
    requires (forall x | x in s1.lists[n] :: NoUse(p, q, s1.v, x)) && NoneUseful(p, q, s1.v, d1) == true
    ensures TriedBelow(p, q, s0, d + d1, n + 1) == true
  {
    forall x | FreeHead(s0.v, x) && (x in d + d1 || BinOf(s0.v[x].hdr) < n + 1) ensures NoUse(p, q, s0.v, x) {
      if x !in d && BinOf(s0.v[x].hdr) >= n {
        assert FreeHead(s1.v, x) && s1.v[x].hdr.sz == s0.v[x].hdr.sz;
        assert x in d1 || x in s1.lists[n];
        assert NoUse(p, q, s1.v, x);
      }
    }
  }

  /** A block that is too small is of no use, and all blocks of lists before that of the request are. */
  lemma SmallBins(p: Policy, q: Request, s0: Snapshot, blocks: int)
    requires WellListed(s0) && q.need == HBLKSIZE * blocks && blocks > 0
    ensures TriedBelow(p, q, s0, {}, HblkFlFromBlocks(blocks)) == true
  {
    forall x | FreeHead(s0.v, x) && BinOf(s0.v[x].hdr) < HblkFlFromBlocks(blocks) ensures NoUse(p, q, s0.v, x) {
      if Len(s0.v[x].hdr) >= blocks {
        BinMonotone(blocks, Len(s0.v[x].hdr));
      }
    }
  }

  /** No free block of exactly the size asked for can serve the request. */
  ghost predicate NoExact(p: Policy, q: Request, v: View) {
    forall x {:trigger FreeHead(v, x)} | FreeHead(v, x) && v[x].hdr.sz == q.need :: NoUse(p, q, v, x)
  }

  /** What the pass for exact fits shows. */
  lemma ExactTried(p: Policy, q: Request, s0: Snapshot, blocks: int, d: set<int>)
    requires WellListed(s0) && q.need == HBLKSIZE * blocks && blocks > 0
    requires var q0, n := q.(maySplit := false), HblkFlFromBlocks(blocks);
      (forall x | x in s0.lists[n] :: NoUse(p, q0, s0.v, x)) && NoneUseful(p, q, s0.v, d)
    requires q.maySplit
    ensures NoExact(p, q, s0.v) == true
    ensures var n := HblkFlFromBlocks(blocks);
      TriedBelow(p, q, s0, d, if n < UNIQUE_THRESHOLD then n + 1 else n) == true
  {
    var q0, n := q.(maySplit := false), HblkFlFromBlocks(blocks);
    SmallBins(p, q, s0, blocks);
    forall x | FreeHead(s0.v, x) && s0.v[x].hdr.sz == q.need ensures NoUse(p, q, s0.v, x) {
      assert Len(s0.v[x].hdr) == blocks;
      assert NoUse(p, q0, s0.v, x);
    }
    forall x | FreeHead(s0.v, x) && (x in d || BinOf(s0.v[x].hdr) < if n < UNIQUE_THRESHOLD then n + 1 else n)
      ensures NoUse(p, q, s0.v, x)
    {
      if x !in d && BinOf(s0.v[x].hdr) == n {
        BinExactIff(blocks);
        assert Len(s0.v[x].hdr) == blocks;
      }
    }
  }

  lemma BlackAllUnion(l: Listing, d: set<int>, d1: set<int>)
    requires BlackAll(l, d) == true && BlackAll(l, d1) == true
    ensures BlackAll(l, d + d1) == true
  {
  }

  /** A choice after some drops was a choice before them. */
  lemma ChoiceBefore(p: Policy, q: Request, s0: Snapshot, d: set<int>, s1: Snapshot, n: int, from: int, r: int)
    requires DropsOnly(s0, d, s1) && 0 <= n < |s0.lists| == |s1.lists|
    requires Choice(p, q, s1.v, s1.lists[n], from, r)
    ensures Choice(p, q, s0.v, s0.lists[n], from, r) == true
  {
  }

  /** What an allocation attempt leaves behind when it fails after trying all lists below n. */
  ghost predicate Failing(p: Policy, q: Request, s0: Snapshot, d: set<int>, s1: Snapshot, n: int, findLeak: bool) {
    && DropsOnly(s0, d, s1) == true
    && TriedBelow(p, q, s0, d, n) == true
    && NoExact(p, q, s0.v) == true
    && BlackAll(p.black, d) == true && (findLeak ==> d == {})
  }

  /** The pass for exact fits failed. */
  lemma FailingFirst(p: Policy, q: Request, s0: Snapshot, blocks: int, d: set<int>, s1: Snapshot, findLeak: bool)
    requires WellListed(s0) == true && q.need == HBLKSIZE * blocks && blocks > 0 && q.maySplit
    requires DropsOnly(s0, d, s1) == true && BlackAll(p.black, d) == true && (findLeak ==> d == {})
    requires var q0, n := q.(maySplit := false), HblkFlFromBlocks(blocks);
      (forall x | x in s0.lists[n] :: NoUse(p, q0, s0.v, x)) && NoneUseful(p, q, s0.v, d) == true
    ensures var n := HblkFlFromBlocks(blocks);
      Failing(p, q, s0, d, s1, if n < UNIQUE_THRESHOLD then n + 1 else n, findLeak) == true
  {
    assert Splitting(q.(maySplit := false)) == q;
    ExactTried(p, q, s0, blocks, d);
  }

  /** One more list failed. */
  lemma FailingNext(p: Policy, q: Request, s0: Snapshot, d: set<int>, s1: Snapshot, n: int, d1: set<int>, s2: Snapshot,
                    findLeak: bool)
    requires WellListed(s0) == true && 0 <= n < N_LISTS && Failing(p, q, s0, d, s1, n, findLeak) == true
    requires DropsOnly(s1, d1, s2) == true && BlackAll(p.black, d1) == true && (findLeak ==> d1 == {})
    requires |s1.lists| == N_LISTS
    requires (forall x | x in s1.lists[n] :: NoUse(p, q, s1.v, x)) && NoneUseful(p, q, s1.v, d1) == true
    ensures Failing(p, q, s0, d + d1, s2, n + 1, findLeak) == true && |d + d1| == |d| + |d1|
  {
    DropsTrans(s0, d, s1, d1, s2);
    ListTried(p, q, s0, d, s1, n, d1);
    BlackAllUnion(p.black, d, d1);
  }

  /** The block r of n blocks was carved out of the free block from, where the black list wants it; the only other
      change is that the free blocks of d, all black listed, were dropped. */
  ghost predicate Succeeded(p: Policy, q: Request, s0: Snapshot, d: set<int>, from: int, r: int, n: int,
                            v: View, free: set<int>, findLeak: bool) {
    && FreeHead(s0.v, from)
    && Usable(p, q, from, s0.v[from].hdr.sz)
    && PlacedAt(p, q, from, s0.v[from].hdr.sz, r)
    && Served(s0.v, s0.free, d, r, n, v, free) == true
    && BlackAll(p.black, d) == true && (findLeak ==> d == {})
    && (s0.v[from].hdr.sz != q.need ==> NoExact(p, q, s0.v) == true)
  }

  lemma SucceededAfter(p: Policy, q: Request, s0: Snapshot, d: set<int>, s1: Snapshot, i: int, d1: set<int>,
                       from: int, r: int, n: int, v: View, free: set<int>, findLeak: bool)
    requires WellListed(s0) == true && 0 <= i < N_LISTS == |s1.lists| && Failing(p, q, s0, d, s1, i, findLeak) == true
    requires Choice(p, q, s1.v, s1.lists[i], from, r) == true && n > 0
    requires Served(s1.v, s1.free, d1, r, n, v, free) == true
    requires BlackAll(p.black, d1) == true && (findLeak ==> d1 == {})
    ensures Succeeded(p, q, s0, d + d1, from, r, n, v, free, findLeak) == true && |d + d1| == |d| + |d1|
  {
    ChoiceBefore(p, q, s0, d, s1, i, from, r);
    ServedTrans(s0, d, s1, d1, r, n, v, free);
    BlackAllUnion(p.black, d, d1);
  }

  /** The pass for exact fits succeeded. */
  lemma ExactServed(p: Policy, q: Request, s0: Snapshot, i: int, d: set<int>, from: int, r: int, n: int,
                    v: View, free: set<int>, findLeak: bool)
    requires 0 <= i < |s0.lists| && q.maySplit
    requires Choice(p, q.(maySplit := false), s0.v, s0.lists[i], from, r) == true
    requires Served(s0.v, s0.free, d, r, n, v, free) == true
    requires BlackAll(p.black, d) == true && (findLeak ==> d == {})
    ensures Succeeded(p, q, s0, d, from, r, n, v, free, findLeak) == true
  {
  }

  /** With no black-listed blocks, being of no use means being too small. */
  lemma UselessIsSmall(p: Policy, q: Request, v: View, x: int)
    requires WellSized(q) && q.maySplit && AllClean(p.black)
    requires NoUse(p, q, v, x)
    ensures v[x].hdr.sz < q.need
  {
    if v[x].hdr.sz >= q.need {
      CleanIsUsable(p, q, x, v[x].hdr.sz);
    }
  }

  lemma CleanIsUsable(p: Policy, q: Request, h: int, size: int)
    requires WellSized(q) && q.maySplit && AllClean(p.black) && size >= q.need
    ensures Usable(p, q, h, size)
  {
    assert Clean(p.black, h, EffSize(q.need, q.flags) / HBLKSIZE);
  }

  /** With no black-listed blocks, a block of exactly the right size is of use. */
  lemma ExactIsUseful(p: Policy, q: Request, v: View, x: int)
    requires WellSized(q) && q.maySplit && AllClean(p.black) && NoExact(p, q, v)
    requires FreeHead(v, x)
    ensures v[x].hdr.sz != q.need
  {
    if v[x].hdr.sz == q.need {
      UselessIsSmall(p, q, v, x);
    }
  }

  ghost predicate AllClean(l: Listing) {
    forall h, n :: Clean(l, h, n)
  }

  /** Every free block is too small. */
  ghost predicate AllTooSmall(v: View, need: int) {
    forall x {:trigger FreeHead(v, x)} | FreeHead(v, x) :: v[x].hdr.sz < need
  }

  /** What failing means when all lists may be split and nothing is black listed. */
  lemma FailedClean(p: Policy, q: Request, s0: Snapshot, d: set<int>, s1: Snapshot, n: int, findLeak: bool)
    requires WellListed(s0) == true && Failing(p, q, s0, d, s1, n, findLeak) == true && n > N_HBLK_FLS
    requires WellSized(q) && q.maySplit
    ensures forall x | FreeHead(s0.v, x) :: NoUse(p, q, s0.v, x)
    ensures AllClean(p.black) ==> AllTooSmall(s0.v, q.need) && d == {}
  {
    if AllClean(p.black) {
      forall x {:trigger FreeHead(s0.v, x)} | FreeHead(s0.v, x) ensures s0.v[x].hdr.sz < q.need {
        assert NoUse(p, q, s0.v, x);
        UselessIsSmall(p, q, s0.v, x);
      }
      forall b ensures b !in d {
        assert Clean(p.black, b, 1);
      }
    }
  }

  /** A block is split only if no free block has exactly the right size, unless that one is black listed. */
  lemma SplitOnlyIfNeeded(p: Policy, q: Request, s0: Snapshot, d: set<int>, from: int, r: int, n: int,
                          v: View, free: set<int>, findLeak: bool, x: int)
    requires Succeeded(p, q, s0, d, from, r, n, v, free, findLeak) && AllClean(p.black) && WellSized(q) && q.maySplit
    requires FreeHead(s0.v, x) && s0.v[x].hdr.sz == q.need
    ensures s0.v[from].hdr.sz == q.need
  {
    if s0.v[from].hdr.sz != q.need {
      ExactIsUseful(p, q, s0.v, x);
    }
  }
}
