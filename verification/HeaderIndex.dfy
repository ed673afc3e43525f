/**
 The two-level index from block numbers to header slots (headers.c).

 A block number is an address divided by HBLKSIZE; 0 is the null pointer.  A bottom_index is a record of
 BOTTOM_SZ slots, found by the high bits of the block number and linked into a list that is sorted both ways.
 The class keeps a ghost map `view` with the same answers, so that clients can reason about one flat map.
 */
module HeaderIndex {
  import opened Sizes

  /** A block header.  While a block is free, sz is a whole number of blocks in bytes; while it is used, sz is
      the object size.  The links prev and next hold block numbers. */
  datatype Hdr = Hdr(sz: int, free: bool, kind: int, flags: int, prev: int, next: int, mark0: bool, nMarks: int)

  datatype Slot = Nil | Count(n: int) | Header(hdr: Hdr)

  datatype BottomIndex = BottomIndex(index: seq<Slot>, asc: int, desc: int)

  const NO_BI := -1

  /** Blocks covered by the block whose header is given. */
  function Len(h: Hdr): int {
    ObjSzToBlocks(h.sz)
  }

  function At(v: map<int, Slot>, b: int): Slot {
    if b in v then v[b] else Nil
  }

  /** The forwarding count stored in slot b of a block with head h. */
  function CountFor(h: int, b: int): Slot {
    Count(if b - h > MAX_JUMP then MAX_JUMP else b - h)
  }

  predicate IsHead(v: map<int, Slot>, b: int) {
    b in v && v[b].Header?
  }

  predicate IsUsed(v: map<int, Slot>, b: int) {
    IsHead(v, b) && !v[b].hdr.free
  }

  /** Every forwarding count leads back over counts only, so it never passes the head of its block, and the
      head it leads to is a used block. */
  ghost predicate CountsLead(v: map<int, Slot>) {
    forall b {:trigger CountLeads(v, b, v[b].n)} | b in v && v[b].Count? :: CountLeads(v, b, v[b].n)
  }

  ghost predicate CountLeads(v: map<int, Slot>, b: int, n: int) {
    && 1 <= n
    && b - n in v
    && (v[b - n].Header? ==> !v[b - n].hdr.free)
    && forall k | b - n < k <= b :: k in v && v[k].Count?
  }

  /** The slots behind the head of a free block are empty. */
  ghost predicate FreeTails(v: map<int, Slot>) {
    forall h | IsHead(v, h) && v[h].hdr.free ::
      && v[h].hdr.sz % HBLKSIZE == 0 && Len(v[h].hdr) >= 1
      && forall k | h < k < h + Len(v[h].hdr) :: k !in v
  }

  ghost predicate Sized(bi: map<int, BottomIndex>) {
    forall k | k in bi :: |bi[k].index| == BOTTOM_SZ
  }

  /** The flat map holds exactly what the bottom indices hold. */
  ghost predicate Agrees(bi: map<int, BottomIndex>, view: map<int, Slot>)
    requires Sized(bi)
  {
    && (forall k, j | k in bi && 0 <= j < BOTTOM_SZ :: bi[k].index[j] == At(view, k * BOTTOM_SZ + j))
    && (forall b | b in view :: b / BOTTOM_SZ in bi)
  }

  ghost predicate Increasing(order: seq<int>) {
    forall i, j | 0 <= i < j < |order| :: order[i] < order[j]
  }

  /** The key at place i of the list, or the null link. */
  function OrderAt(order: seq<int>, i: int): int {
    if 0 <= i < |order| then order[i] else NO_BI
  }

  ghost predicate Linked(bi: map<int, BottomIndex>, order: seq<int>, first: int, last: int) {
    && Increasing(order)
    && (forall i {:trigger LinkedAt(bi, order, i)} | 0 <= i < |order| :: LinkedAt(bi, order, i))
    && (forall k | k in bi :: k in order)
    && first == OrderAt(order, 0)
    && last == OrderAt(order, |order| - 1)
  }

  ghost predicate LinkedAt(bi: map<int, BottomIndex>, order: seq<int>, i: int)
    requires 0 <= i < |order|
  {
    0 <= order[i] && order[i] in bi && bi[order[i]].asc == OrderAt(order, i + 1) && bi[order[i]].desc == OrderAt(order, i - 1)
  }

  lemma LinkAt(bi: map<int, BottomIndex>, order: seq<int>, first: int, last: int, i: int)
    requires Linked(bi, order, first, last) && 0 <= i < |order|
    ensures LinkedAt(bi, order, i) && order[i] != NO_BI
  {
  }

  /** Changing only the slots of a bottom index keeps the list. */
  lemma LinkedSame(bi: map<int, BottomIndex>, order: seq<int>, first: int, last: int, k: int, x: BottomIndex)
    requires Linked(bi, order, first, last) && k in bi && x.asc == bi[k].asc && x.desc == bi[k].desc
    ensures Linked(bi[k := x], order, first, last)
  {
    forall i {:trigger LinkedAt(bi[k := x], order, i)} | 0 <= i < |order| ensures LinkedAt(bi[k := x], order, i) {
      assert LinkedAt(bi, order, i);
    }
  }

  /** The bottom indices after a new one for key hi is linked in between pi and p. */
  function LinkIn(bi: map<int, BottomIndex>, hi: int, p: int, pi: int): map<int, BottomIndex>
    requires p == NO_BI || p in bi
    requires pi == NO_BI || pi in bi
  {
    var b1 := bi[hi := BottomIndex(seq(BOTTOM_SZ, _ => Nil), p, pi)];
    var b2 := if p == NO_BI then b1 else b1[p := b1[p].(desc := hi)];
    if pi == NO_BI then b2 else b2[pi := b2[pi].(asc := hi)]
  }

  lemma LinkedInsertAt(bi: map<int, BottomIndex>, order: seq<int>, first: int, last: int, i: int, hi: int, j: int)
    requires Linked(bi, order, first, last) && 0 <= i <= |order| && hi !in bi && 0 <= hi && 0 <= j <= |order|
    ensures OrderAt(order, i) == NO_BI || OrderAt(order, i) in bi
    ensures OrderAt(order, i - 1) == NO_BI || OrderAt(order, i - 1) in bi
    ensures LinkedAt(LinkIn(bi, hi, OrderAt(order, i), OrderAt(order, i - 1)), order[..i] + [hi] + order[i..], j)
  {
    assert i < |order| ==> LinkedAt(bi, order, i);
    assert i > 0 ==> LinkedAt(bi, order, i - 1);
    var order1 := order[..i] + [hi] + order[i..];
    if j < i {
      assert LinkedAt(bi, order, j) && order1[j] == order[j];
    } else if j > i {
      assert LinkedAt(bi, order, j - 1) && order1[j] == order[j - 1];
    }
  }

  lemma LinkedInsert(bi: map<int, BottomIndex>, order: seq<int>, first: int, last: int, i: int, hi: int)
    requires Linked(bi, order, first, last) && 0 <= i <= |order| && hi !in bi && 0 <= hi
    requires i > 0 ==> order[i - 1] < hi
    requires i < |order| ==> hi < order[i]
    ensures OrderAt(order, i) == NO_BI || OrderAt(order, i) in bi
    ensures OrderAt(order, i - 1) == NO_BI || OrderAt(order, i - 1) in bi
    ensures Linked(LinkIn(bi, hi, OrderAt(order, i), OrderAt(order, i - 1)), order[..i] + [hi] + order[i..],
                   if OrderAt(order, i - 1) == NO_BI then hi else first,
                   if OrderAt(order, i) == NO_BI then hi else last)
  {
    LinkedInsertAt(bi, order, first, last, i, hi, i);
    forall k | 0 <= k < |order| ensures order[k] >= 0 {
      assert LinkedAt(bi, order, k);
    }
    var bi1 := LinkIn(bi, hi, OrderAt(order, i), OrderAt(order, i - 1));
    var order1 := order[..i] + [hi] + order[i..];
    InsertKeepsOrder(order, i, hi);
    forall j {:trigger LinkedAt(bi1, order1, j)} | 0 <= j < |order1| ensures LinkedAt(bi1, order1, j) {
      LinkedInsertAt(bi, order, first, last, i, hi, j);
    }
    InsertHasAll(bi, order, first, last, i, hi);
    InsertEnds(order, i, hi);
  }

  lemma InsertHasAll(bi: map<int, BottomIndex>, order: seq<int>, first: int, last: int, i: int, hi: int)
    requires Linked(bi, order, first, last) && 0 <= i <= |order|
    requires OrderAt(order, i) == NO_BI || OrderAt(order, i) in bi
    requires OrderAt(order, i - 1) == NO_BI || OrderAt(order, i - 1) in bi
    ensures forall k | k in LinkIn(bi, hi, OrderAt(order, i), OrderAt(order, i - 1)) :: k in order[..i] + [hi] + order[i..]
  {
    forall k | k in LinkIn(bi, hi, OrderAt(order, i), OrderAt(order, i - 1)) ensures k in order[..i] + [hi] + order[i..] {
      if k != hi {
        assert order == order[..i] + order[i..];
      }
    }
  }

  lemma InsertEnds(order: seq<int>, i: nat, hi: int)
    requires i <= |order| && forall k | 0 <= k < |order| :: order[k] >= 0
    ensures var order1 := order[..i] + [hi] + order[i..];
      && OrderAt(order1, 0) == (if OrderAt(order, i - 1) == NO_BI then hi else OrderAt(order, 0))
      && OrderAt(order1, |order1| - 1) == (if OrderAt(order, i) == NO_BI then hi else OrderAt(order, |order| - 1))
  {
  }

  lemma AgreesInsert(bi: map<int, BottomIndex>, view: map<int, Slot>, hi: int, p: int, pi: int)
    requires Sized(bi) && Agrees(bi, view)
    requires hi !in bi
    requires p == NO_BI || p in bi
    requires pi == NO_BI || pi in bi
    ensures Sized(LinkIn(bi, hi, p, pi)) && Agrees(LinkIn(bi, hi, p, pi), view)
  {
  }

  /** The representation invariant, on values. */
  ghost predicate Rep(bi: map<int, BottomIndex>, order: seq<int>, first: int, last: int, view: map<int, Slot>) {
    && Sized(bi)
    && Linked(bi, order, first, last)
    && Agrees(bi, view)
    && (forall b | b in view :: view[b] != Nil)
  }

  lemma RepInsert(bi: map<int, BottomIndex>, order: seq<int>, first: int, last: int, view: map<int, Slot>,
                  i: int, hi: int)
    requires Rep(bi, order, first, last, view) && 0 <= i <= |order| && hi !in bi && 0 <= hi
    requires i > 0 ==> order[i - 1] < hi
    requires i < |order| ==> hi < order[i]
    ensures OrderAt(order, i) == NO_BI || OrderAt(order, i) in bi
    ensures OrderAt(order, i - 1) == NO_BI || OrderAt(order, i - 1) in bi
    ensures var bi1 := LinkIn(bi, hi, OrderAt(order, i), OrderAt(order, i - 1));
      && bi1.Keys == bi.Keys + {hi}
      && Rep(bi1, order[..i] + [hi] + order[i..],
             if OrderAt(order, i - 1) == NO_BI then hi else first,
             if OrderAt(order, i) == NO_BI then hi else last, view)
  {
    LinkedInsert(bi, order, first, last, i, hi);
    AgreesInsert(bi, view, hi, OrderAt(order, i), OrderAt(order, i - 1));
  }

  /** Storing slot s for block b. */
  lemma AgreesStore(bi: map<int, BottomIndex>, view: map<int, Slot>, b: int, s: Slot)
    requires Sized(bi) && Agrees(bi, view) && b / BOTTOM_SZ in bi
    ensures var k, j := b / BOTTOM_SZ, b % BOTTOM_SZ;
      var bi1 := bi[k := bi[k].(index := bi[k].index[j := s])];
      Sized(bi1) && Agrees(bi1, if s == Nil then view - {b} else view[b := s])
  {
  }

  /** Slots h + 1 up to end hold the forwarding counts to h; all others are as in v0. */
  ghost predicate CountsInstalled(v0: map<int, Slot>, v: map<int, Slot>, h: int, end: int) {
    forall b :: At(v, b) == if h < b < end then CountFor(h, b) else At(v0, b)
  }

  /** Slots h + 1 up to end are empty; all others are as in v0. */
  ghost predicate CountsRemoved(v0: map<int, Slot>, v: map<int, Slot>, h: int, end: int) {
    forall b :: At(v, b) == if h < b < end then Nil else At(v0, b)
  }

  lemma InsertKeepsOrder(order: seq<int>, i: nat, x: int)
    requires Increasing(order) && i <= |order|
    requires i > 0 ==> order[i - 1] < x
    requires i < |order| ==> x < order[i]
    ensures Increasing(order[..i] + [x] + order[i..])
  {
  }

  class Index {
    var bi: map<int, BottomIndex>
    var first: int
    var last: int
    ghost var order: seq<int>
    ghost var view: map<int, Slot>

    /** The comparison keeps the verifier from splitting the invariant into its parts at every call. */
    ghost predicate Valid()
      reads this
    {
      Rep(bi, order, first, last, view) == true
    }

    /** No slot between the bottom indices at i and i + 1 is in use. */
    lemma NoneBetween(b: int, i: int, hi: int)
      requires Valid() && -1 <= i < |order|
      requires forall x | i < x < |order| :: order[x] >= hi
      requires i >= 0 ==> b / BOTTOM_SZ > order[i]
      requires b / BOTTOM_SZ < hi || (hi !in bi && b / BOTTOM_SZ == hi)
      ensures b !in view
    {
    }

    constructor ()
      ensures Valid() && view == map[] && bi == map[]
    {
      bi, first, last := map[], NO_BI, NO_BI;
      order, view := [], map[];
    }

    /** HDR(b): the slot for block b. */
    function Hdr(b: int): (s: Slot)
      requires Valid()
      reads this
      ensures s == At(view, b)
    {
      var hi := b / BOTTOM_SZ;
      if hi in bi then bi[hi].index[b % BOTTOM_SZ] else Nil
    }

    /** get_index: make sure there is a bottom index for block b, inserting it in key order. */
    method GetIndex(b: int)
      requires Valid() && b >= 0
      modifies this
      ensures Valid() && view == old(view)
      ensures bi.Keys == old(bi.Keys) + {b / BOTTOM_SZ}
    {
      var hi := b / BOTTOM_SZ;
      if hi in bi {
        return;
      }
      var pi, p := NO_BI, first;
      ghost var i := 0;
      while p != NO_BI && p < hi
        invariant unchanged(this) && 0 <= i <= |order|
        invariant p == OrderAt(order, i) && pi == OrderAt(order, i - 1)
        invariant i > 0 ==> pi < hi
        decreases |order| - i
      {
        LinkAt(bi, order, first, last, i);
        pi, p := p, bi[p].asc;
        i := i + 1;
      }
      if i < |order| {
        LinkAt(bi, order, first, last, i);
      }
      LinkNew(hi, p, pi, i);
    }

    /** The second half of get_index: link in an empty bottom index for key hi between pi and p. */
    method LinkNew(hi: int, p: int, pi: int, ghost i: int)
      requires Valid() && hi >= 0 && hi !in bi && 0 <= i <= |order|
      requires p == OrderAt(order, i) && pi == OrderAt(order, i - 1)
      requires i > 0 ==> pi < hi
      requires i < |order| ==> hi < p
      modifies this
      ensures Valid() && view == old(view)
      ensures bi.Keys == old(bi.Keys) + {hi}
    {
      RepInsert(bi, order, first, last, view, i, hi);
      var table := bi[hi := BottomIndex(seq(BOTTOM_SZ, _ => Nil), p, pi)];
      if p != NO_BI {
        table := table[p := table[p].(desc := hi)];
      }
      if pi != NO_BI {
        table := table[pi := table[pi].(asc := hi)];
      }
      bi := table;
      first, last := if pi == NO_BI then hi else first, if p == NO_BI then hi else last;
      order := order[..i] + [hi] + order[i..];
    }

    /** SET_HDR: the bottom index of b must exist. */
    method SetHdr(b: int, s: Slot)
      requires Valid() && b / BOTTOM_SZ in bi
      modifies this
      ensures Valid() && bi.Keys == old(bi.Keys) && order == old(order)
      ensures view == if s == Nil then old(view) - {b} else old(view)[b := s]
    {
      var hi := b / BOTTOM_SZ;
      AgreesStore(bi, view, b, s);
      LinkedSame(bi, order, first, last, hi, bi[hi].(index := bi[hi].index[b % BOTTOM_SZ := s]));
      bi := bi[hi := bi[hi].(index := bi[hi].index[b % BOTTOM_SZ := s])];
      view := if s == Nil then view - {b} else view[b := s];
    }

    /** Overwrite the header of a block that already has one. */
    method PutHdr(b: int, h: Hdr)
      requires Valid() && IsHead(view, b)
      modifies this
      ensures Valid() && bi.Keys == old(bi.Keys) && order == old(order)
      ensures view == old(view)[b := Header(h)]
    {
      SetHdr(b, Header(h));
    }

    /** GC_install_header: the header comes from the allocator of headers, its contents are junk. */
    method InstallHeader(b: int, junk: Hdr)
      requires Valid() && b >= 0
      modifies this
      ensures Valid() && view == old(view)[b := Header(junk)]
      ensures old(bi.Keys) <= bi.Keys
    {
      GetIndex(b);
      SetHdr(b, Header(junk));
    }

    /** GC_remove_header. */
    method RemoveHeader(b: int)
      requires Valid() && IsHead(view, b)
      modifies this
      ensures Valid() && view == old(view) - {b} && order == old(order)
    {
      SetHdr(b, Nil);
    }

    /** The first loop of GC_install_counts: every block of the range gets a bottom index. */
    method GetIndices(h: int, n: int)
      requires Valid() && h >= 0 && n > 0
      modifies this
      ensures Valid() && view == old(view) && old(bi.Keys) <= bi.Keys
      ensures forall b | h <= b < h + n :: b / BOTTOM_SZ in bi
    {
      var hbp := h;
      ghost var t := 0;
      while hbp < h + n
        invariant Valid() && view == old(view) && old(bi.Keys) <= bi.Keys
        invariant hbp == h + t * BOTTOM_SZ && t >= 0
        invariant forall k | h / BOTTOM_SZ <= k < h / BOTTOM_SZ + t :: k in bi
        decreases h + n - hbp
      {
        GetIndex(hbp);
        hbp := hbp + BOTTOM_SZ;
        t := t + 1;
      }
      GetIndex(h + n - 1);
      forall b | h <= b < h + n ensures b / BOTTOM_SZ in bi {
        assert b / BOTTOM_SZ < h / BOTTOM_SZ + t || b / BOTTOM_SZ == (h + n - 1) / BOTTOM_SZ;
      }
    }

    /** GC_install_counts: set the forwarding counts behind the head h of a block of sz bytes. */
    method InstallCounts(h: int, sz: int)
      requires Valid() && h >= 0 && sz > 0 && sz % HBLKSIZE == 0
      modifies this
      ensures Valid() && old(bi.Keys) <= bi.Keys
      ensures CountsInstalled(old(view), view, h, h + sz / HBLKSIZE)
    {
      var n := sz / HBLKSIZE;
      GetIndices(h, n);
      ghost var keys := bi.Keys;
      var hbp := h + 1;
      while hbp < h + n
        invariant Valid() && h + 1 <= hbp <= h + n && bi.Keys == keys
        invariant CountsInstalled(old(view), view, h, hbp)
      {
        var i := hbp - h;
        SetHdr(hbp, Count(if i > MAX_JUMP then MAX_JUMP else i));
        hbp := hbp + 1;
      }
    }

    /** GC_remove_counts.  Storing a nil where there is no bottom index writes to the shared all-nil index,
        which changes nothing. */
    method RemoveCounts(h: int, sz: int)
      requires Valid() && h >= 0 && sz > 0 && sz % HBLKSIZE == 0
      modifies this
      ensures Valid() && bi.Keys == old(bi.Keys) && order == old(order)
      ensures CountsRemoved(old(view), view, h, h + sz / HBLKSIZE)
    {
      var n := sz / HBLKSIZE;
      var hbp := h + 1;
      while hbp < h + n
        invariant Valid() && h + 1 <= hbp <= h + n && bi.Keys == old(bi.Keys) && order == old(order)
        invariant CountsRemoved(old(view), view, h, hbp)
      {
        ghost var v := view;
        if hbp / BOTTOM_SZ in bi {
          SetHdr(hbp, Nil);
        }
        assert At(v, hbp) == Nil || hbp / BOTTOM_SZ in bi;
        assert forall b :: At(view, b) == if b == hbp then Nil else At(v, b);
        hbp := hbp + 1;
      }
    }

    /** The last bottom index whose key is at most hi, found from the high end, or NO_BI. */
    method LastAtMost(hi: int) returns (p: int, ghost i: int)
      requires Valid()
      ensures -1 <= i < |order| && p == OrderAt(order, i)
      ensures i >= 0 ==> p in bi && 0 <= p <= hi
      ensures forall x | i < x < |order| :: order[x] > hi
    {
      p, i := last, |order| - 1;
      while p != NO_BI && p > hi
        invariant -1 <= i < |order| && p == OrderAt(order, i)
        invariant forall x | i < x < |order| :: order[x] > hi
        decreases i
      {
        LinkAt(bi, order, first, last, i);
        p := bi[p].desc;
        i := i - 1;
      }
      if i >= 0 {
        LinkAt(bi, order, first, last, i);
      }
    }

    /** GC_prev_block: the nearest head at or below h, or 0. */
    method PrevBlock(h: int) returns (r: int)
      requires Valid() && h >= 0 && CountsLead(view) && 0 !in view
      ensures r == 0 ==> forall b | b <= h :: !IsHead(view, b)
      ensures r != 0 ==> IsHead(view, r) && r <= h && forall b | r < b <= h :: !IsHead(view, b)
    {
      var p, j := h / BOTTOM_SZ, h % BOTTOM_SZ;
      ghost var i := 0;
      if p !in bi {
        ghost var hi := p;
        p, i := LastAtMost(p);
        j := BOTTOM_SZ - 1;
        forall b | b <= h && (i == -1 || b > p * BOTTOM_SZ + j) ensures !IsHead(view, b) {
          NoneBetween(b, i, hi);
        }
      } else {
        i :| 0 <= i < |order| && order[i] == p;
      }
      while p != NO_BI
        invariant -1 <= i < |order| && p == OrderAt(order, i)
        invariant p != NO_BI ==> i >= 0 && p in bi && 0 <= j < BOTTOM_SZ && p * BOTTOM_SZ + j <= h
        invariant forall b | b <= h && (p == NO_BI || b > p * BOTTOM_SZ + j) :: !IsHead(view, b)
        decreases i
      {
        r, j := PrevInBottom(p, j, h);
        if r != 0 {
          return;
        }
        LinkAt(bi, order, first, last, i);
        ghost var hi := p;
        j := BOTTOM_SZ - 1;
        p := bi[p].desc;
        i := i - 1;
        if i >= 0 {
          LinkAt(bi, order, first, last, i);
        }
        forall b | b <= h && (i == -1 || b > p * BOTTOM_SZ + j) ensures !IsHead(view, b) {
          if b < hi * BOTTOM_SZ {
            NoneBetween(b, i, hi);
          }
        }
      }
      return 0;
    }

    /** The inner loop of GC_prev_block: scan bottom index p downwards from slot j0. */
    method PrevInBottom(p: int, j0: int, h: int) returns (r: int, j: int)
      requires Valid() && CountsLead(view) && 0 !in view
      requires p in bi && 0 <= j0 < BOTTOM_SZ && p * BOTTOM_SZ + j0 <= h
      requires forall b | b <= h && b > p * BOTTOM_SZ + j0 :: !IsHead(view, b)
      ensures r == 0 ==> j < 0 && forall b | b <= h && b > p * BOTTOM_SZ + j :: !IsHead(view, b)
      ensures r != 0 ==> IsHead(view, r) && r <= h && forall b | r < b <= h :: !IsHead(view, b)
    {
      j := j0;
      while j >= 0
        invariant j < BOTTOM_SZ && p * BOTTOM_SZ + j <= h
        invariant forall b | b <= h && b > p * BOTTOM_SZ + j :: !IsHead(view, b)
      {
        var s := bi[p].index[j];
        var b := p * BOTTOM_SZ + j;
        assert s == At(view, b);
        assert s.Count? ==> CountLeads(view, b, s.n);
        match s
        case Nil => j := j - 1;
        case Count(n) => j := j - n;
        case Header(_) => return b, j;
      }
      return 0, j;
    }

    /** The first bottom index whose key is at least hi, found from the low end, or NO_BI. */
    method FirstAtLeast(hi: int) returns (p: int, ghost i: int)
      requires Valid()
      ensures 0 <= i <= |order| && p == OrderAt(order, i)
      ensures i < |order| ==> p in bi && 0 <= p && hi <= p
      ensures forall x | 0 <= x < i :: order[x] < hi
    {
      p, i := first, 0;
      while p != NO_BI && p < hi
        invariant 0 <= i <= |order| && p == OrderAt(order, i)
        invariant forall x | 0 <= x < i :: order[x] < hi
        decreases |order| - i
      {
        LinkAt(bi, order, first, last, i);
        p := bi[p].asc;
        i := i + 1;
      }
      if i < |order| {
        LinkAt(bi, order, first, last, i);
      }
    }

    /** GC_next_used_block: the nearest used head at or above h, or 0. */
    method NextUsedBlock(h: int) returns (r: int)
      requires Valid() && h >= 0 && FreeTails(view) && 0 !in view
      ensures r == 0 ==> forall b | b >= h :: !IsUsed(view, b)
      ensures r != 0 ==> IsUsed(view, r) && r >= h && forall b | h <= b < r :: !IsUsed(view, b)
    {
      var p, j := h / BOTTOM_SZ, h % BOTTOM_SZ;
      ghost var i := 0;
      if p !in bi {
        p, i := FirstAtLeast(p);
        j := 0;
        forall b | h <= b && (i == |order| || b < p * BOTTOM_SZ) ensures b !in view {
          NoneBetween(b, i - 1, if i < |order| then p else b / BOTTOM_SZ + 1);
        }
      } else {
        i :| 0 <= i < |order| && order[i] == p;
      }
      while p != NO_BI
        invariant 0 <= i <= |order| && p == OrderAt(order, i)
        invariant p != NO_BI ==> i < |order| && p in bi && 0 <= j < BOTTOM_SZ && h <= p * BOTTOM_SZ + j
        invariant forall b | h <= b && (p == NO_BI || b < p * BOTTOM_SZ + j) :: !IsUsed(view, b)
        decreases |order| - i
      {
        r, j := NextInBottom(p, j, h);
        if r != 0 {
          return;
        }
        p, i := NextBottom(p, i);
        j := 0;
      }
      return 0;
    }

    /** Follow asc_link; no slot between the two bottom indices is in use. */
    method NextBottom(p: int, ghost i: int) returns (q: int, ghost i': int)
      requires Valid() && 0 <= i < |order| && p == order[i]
      ensures i' == i + 1 && q == OrderAt(order, i')
      ensures i' < |order| ==> q in bi && p < q
      ensures i' == |order| ==> q == NO_BI
      ensures forall b | (p + 1) * BOTTOM_SZ <= b && (q == NO_BI || b < q * BOTTOM_SZ) :: b !in view
    {
      LinkAt(bi, order, first, last, i);
      q, i' := bi[p].asc, i + 1;
      if i' < |order| {
        LinkAt(bi, order, first, last, i');
      }
      forall b | (p + 1) * BOTTOM_SZ <= b && (q == NO_BI || b < q * BOTTOM_SZ) ensures b !in view {
        NoneBetween(b, i, if i' < |order| then q else b / BOTTOM_SZ + 1);
      }
    }

    /** The inner loop of GC_next_used_block: scan bottom index p upwards from slot j0. */
    method NextInBottom(p: int, j0: int, h: int) returns (r: int, j: int)
      requires Valid() && FreeTails(view) && 0 !in view
      requires p in bi && 0 <= j0 < BOTTOM_SZ
      requires forall b | h <= b < p * BOTTOM_SZ + j0 :: !IsUsed(view, b)
      ensures r == 0 ==> j >= BOTTOM_SZ && forall b | h <= b < p * BOTTOM_SZ + j :: !IsUsed(view, b)
      ensures r != 0 ==> IsUsed(view, r) && r >= p * BOTTOM_SZ + j0 && forall b | h <= b < r :: !IsUsed(view, b)
    {
      j := j0;
      while j < BOTTOM_SZ
        invariant j0 <= j
        decreases BOTTOM_SZ - j
        invariant forall b | h <= b < p * BOTTOM_SZ + j :: !IsUsed(view, b)
      {
        var s := bi[p].index[j];
        var b := p * BOTTOM_SZ + j;
        assert s == At(view, b);
        match s
        case Nil => j := j + 1;
        case Count(_) => j := j + 1;
        case Header(hhdr) =>
          if !hhdr.free {
            return b, j;
          }
          assert IsHead(view, b);
          j := j + hhdr.sz / HBLKSIZE;
      }
      return 0, j;
    }

    /** GC_free_block_ending_at: the free block that ends just before h, or 0. */
    method FreeBlockEndingAt(h: int) returns (r: int)
      requires Valid() && h >= 1 && CountsLead(view) && FreeTails(view) && forall b | b in view :: b > 0
      requires forall p | IsHead(view, p) && view[p].hdr.free :: !(p < h < p + Len(view[p].hdr))
      ensures r == 0 ==> forall p | IsHead(view, p) && view[p].hdr.free :: p + Len(view[p].hdr) != h
      ensures r != 0 ==> IsHead(view, r) && view[r].hdr.free && r + Len(view[r].hdr) == h
    {
      var p := h - 1;
      var s := Hdr(p);
      while s.Count?
        invariant s == At(view, p) && p < h
        invariant p == h - 1 || (s.Header? ==> !s.hdr.free)
        invariant s == Nil ==> p == h - 1
        invariant p < h - 1 ==> h - 1 in view && view[h - 1].Count?
        decreases p
      {
        assert CountLeads(view, p, s.n);
        p := p - s.n;
        s := Hdr(p);
      }
      if s != Nil {
        if s.hdr.free {
          return p;
        } else {
          return 0;
        }
      }
      p := PrevBlock(h - 1);
      if p != 0 {
        var phdr := Hdr(p).hdr;
        if phdr.free && p + phdr.sz / HBLKSIZE == h {
          return p;
        }
      }
      return 0;
    }
  }
}
