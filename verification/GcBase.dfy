/** GC_base (misc.c): from an interior pointer to the start of the object around it. */
module GcBase {
  import opened Sizes
  import opened HeaderIndex
  import opened HeapShape

  /** Object sizes are whole words. */
  ghost predicate WordSizes(v: View) {
    forall b {:trigger IsUsed(v, b)} | IsUsed(v, b) :: v[b].hdr.sz % WORD_BYTES == 0
  }

  /** The offset off is a multiple of sz. */
  ghost predicate MultipleOf(off: int, sz: int) {
    exists k: nat :: off == k * sz
  }

  /** An object of the used block b starts at address r: the block holds as many objects as fit whole into one
      heap block, or a single object larger than that. */
  ghost predicate Slot(v: View, b: int, r: int) {
    && IsUsed(v, b)
    && v[b].hdr.sz > 0
    && if v[b].hdr.sz > HBLKSIZE then r == b * HBLKSIZE
       else MultipleOf(r - b * HBLKSIZE, v[b].hdr.sz) && r - b * HBLKSIZE + v[b].hdr.sz <= HBLKSIZE
  }

  /** The address p lies in the object of block b that starts at r. */
  ghost predicate Holds(v: View, b: int, r: int, p: int) {
    Slot(v, b, r) && r <= p < r + v[b].hdr.sz
  }

  lemma MulMono(a: int, b: int, c: int)
    requires a <= b && c >= 0
    ensures a * c <= b * c
  {
    assert (b - a) * c >= 0;
  }

  lemma MultiplePositive(off: int, sz: int)
    requires sz > 0 && MultipleOf(off, sz)
    ensures off >= 0
  {
    var k: nat :| off == k * sz;
    MulMono(0, k, sz);
  }

  /** A pointer into an object points into a heap block of the object's block. */
  lemma HolderOwns(v: View, owner: map<int, int>, b: int, r: int, p: int)
    requires Tiled(v, owner) && Holds(v, b, r, p)
    ensures p / HBLKSIZE in owner && owner[p / HBLKSIZE] == b
  {
    assert Extent(v, owner, b);
    if v[b].hdr.sz <= HBLKSIZE {
      MultiplePositive(r - b * HBLKSIZE, v[b].hdr.sz);
    }
    assert b <= p / HBLKSIZE < b + Len(v[b].hdr);
  }

  /** Two multiples of sz at most sz below p coincide. */
  lemma SameMultiple(x: int, y: int, sz: int, p: int)
    requires sz > 0 && MultipleOf(x, sz) && MultipleOf(y, sz) && x <= p < x + sz && y <= p < y + sz
    ensures x == y
  {
    var i: nat :| x == i * sz;
    var j: nat :| y == j * sz;
    assert (i + 1) * sz == x + sz && (j + 1) * sz == y + sz;
    if i < j {
      MulMono(i + 1, j, sz);
    } else if j < i {
      MulMono(j + 1, i, sz);
    }
  }

  /** No address lies in two objects. */
  lemma OneHolder(v: View, owner: map<int, int>, b: int, r: int, b2: int, r2: int, p: int)
    requires Tiled(v, owner) && Holds(v, b, r, p) && Holds(v, b2, r2, p)
    ensures b == b2 && r == r2
  {
    HolderOwns(v, owner, b, r, p);
    HolderOwns(v, owner, b2, r2, p);
    if v[b].hdr.sz <= HBLKSIZE {
      SameMultiple(r - b * HBLKSIZE, r2 - b * HBLKSIZE, v[b].hdr.sz, p - b * HBLKSIZE);
    }
  }

  /** The loop of GC_base: follow the forwarding counts from block h0 to the head of its block. */
  method HeadOf(index: Index, h0: int, ghost owner: map<int, int>) returns (h: int)
    requires index.Valid() && Tiled(index.view, owner) && At(index.view, h0) != Nil
    ensures IsHead(index.view, h) && h0 in owner && owner[h0] == h
  {
    ghost var v := index.view;
    TiledLeads(v, owner);
    assert Owned(v, owner, h0) && Covers(v, owner, 0, h0);
    h := h0;
    var s := index.Hdr(h);
    while s.Count?
      invariant s == At(v, h) && s != Nil && h in owner && owner[h] == owner[h0]
      decreases h
    {
      assert CountLeads(v, h, s.n);
      CountInside(v, owner, h);
      h := h - s.n;
      s := index.Hdr(h);
    }
    HeadOwnsItself(v, owner, 0, h);
  }

  /** A forwarding count leads to a block number of the same block. */
  lemma CountInside(v: View, owner: map<int, int>, b: int)
    requires Tiled(v, owner) && b in v && v[b].Count?
    ensures b in owner && b > 0 && v[b].n >= 1
    ensures b - v[b].n in v && v[b - v[b].n] != Nil
    ensures b - v[b].n in owner && owner[b - v[b].n] == owner[b]
  {
    assert Owned(v, owner, b) && Covers(v, owner, 0, b);
    assert Extent(v, owner, owner[b]);
    assert owner[b] <= b - v[b].n;
    assert Covers(v, owner, 0, b - v[b].n);
  }

  /** GC_base: the start of the object that holds address p, or 0 if no object does. */
  method Base(index: Index, p: int, ghost owner: map<int, int>) returns (r: int)
    requires index.Valid() && Tiled(index.view, owner) && WordSizes(index.view) && p >= 0
    ensures r != 0 ==> exists b :: Holds(index.view, b, r, p)
    ensures r == 0 ==> forall b, q :: !Holds(index.view, b, q, p)
  {
    ghost var v := index.view;
    var candidate := index.Hdr(p / HBLKSIZE);
    if candidate == Nil {
      NilHoldsNothing(v, owner, p);
      return 0;
    }
    var h := HeadOf(index, p / HBLKSIZE, owner);
    HeadOwnsItself(v, owner, 0, h);
    r := if h == p / HBLKSIZE then p else h * HBLKSIZE;
    var hhdr := index.Hdr(h).hdr;
    if hhdr.free {
      OnlyOwner(v, owner, h, p);
      return 0;
    }
    assert Extent(v, owner, h) && Covers(v, owner, 0, p / HBLKSIZE);
    OffsetFacts(h, p);
    r := r - r % WORD_BYTES;
    var objDispl := (r % HBLKSIZE) % hhdr.sz;
    RoundStart(h, StartOffset(h, p), hhdr.sz);
    r := r - objDispl;
    var limit := r + hhdr.sz;
    BaseFacts(v, owner, h, p, r, hhdr.sz);
    if limit > (h + 1) * HBLKSIZE && hhdr.sz <= HBLKSIZE {
      return 0;
    }
    if p >= limit {
      return 0;
    }
    assert Holds(v, h, r, p);
  }

  lemma NilHoldsNothing(v: View, owner: map<int, int>, p: int)
    requires Tiled(v, owner) && At(v, p / HBLKSIZE) == Nil
    ensures forall b, q :: !Holds(v, b, q, p)
  {
    forall b, q ensures !Holds(v, b, q, p) {
      if Holds(v, b, q, p) {
        HolderOwns(v, owner, b, q, p);
        UsedHasNoNil(v, owner, p / HBLKSIZE);
      }
    }
  }

  lemma UsedHasNoNil(v: View, owner: map<int, int>, b: int)
    requires Tiled(v, owner) && b in owner && IsUsed(v, owner[b])
    ensures At(v, b) != Nil
  {
    assert Covers(v, owner, 0, b);
  }

  /** An object that holds p belongs to the block around p. */
  lemma OnlyOwner(v: View, owner: map<int, int>, h: int, p: int)
    requires Tiled(v, owner) && p / HBLKSIZE in owner && owner[p / HBLKSIZE] == h
    ensures forall b, q :: Holds(v, b, q, p) ==> b == h
  {
    forall b, q | Holds(v, b, q, p) ensures b == h {
      HolderOwns(v, owner, b, q, p);
    }
  }

  /** The offset in block h, or in its first heap block, that GC_base starts from. */
  function StartOffset(h: int, p: int): int {
    if h == p / HBLKSIZE then p % HBLKSIZE - p % WORD_BYTES else 0
  }

  /** The start r is the last multiple of sz in block h that is not beyond the offset off. */
  ghost predicate RoundedDown(h: int, r: int, sz: int, off: int) {
    MultipleOf(r - h * HBLKSIZE, sz) && r - h * HBLKSIZE <= off < r - h * HBLKSIZE + sz
  }

  /** The address from which GC_base rounds down to an object. */
  lemma OffsetFacts(h: int, p: int)
    requires p >= 0 && h > 0 && h <= p / HBLKSIZE
    ensures 0 <= StartOffset(h, p) < HBLKSIZE
    ensures var r0 := if h == p / HBLKSIZE then p else h * HBLKSIZE;
      var r1 := r0 - r0 % WORD_BYTES;
      r1 == h * HBLKSIZE + StartOffset(h, p) && r1 % HBLKSIZE == StartOffset(h, p) && r1 <= p
  {
  }

  lemma RoundStart(h: int, off: int, sz: int)
    requires sz > 0 && off >= 0
    ensures RoundedDown(h, h * HBLKSIZE + off - off % sz, sz, off)
  {
    Rounded(off, sz);
    assert h * HBLKSIZE + off - off % sz - h * HBLKSIZE == off - off % sz;
  }

  /** The start that GC_base computes in the used block h is the only place an object around p can start. */
  lemma BaseFacts(v: View, owner: map<int, int>, h: int, p: int, r: int, sz: int)
    requires Tiled(v, owner) && WordSizes(v) && IsUsed(v, h) && p >= 0 && h > 0 && sz == v[h].hdr.sz > 0
    requires p / HBLKSIZE in owner && owner[p / HBLKSIZE] == h && h <= p / HBLKSIZE
    requires RoundedDown(h, r, sz, StartOffset(h, p))
    ensures r > 0 && r <= p
    ensures Slot(v, h, r) <==> !(r + sz > (h + 1) * HBLKSIZE && sz <= HBLKSIZE)
    ensures !(Slot(v, h, r) && p < r + sz) ==> forall b, q :: !Holds(v, b, q, p)
  {
    OffsetFacts(h, p);
    OnlyOwner(v, owner, h, p);
    MultiplePositive(r - h * HBLKSIZE, sz);
    if sz > HBLKSIZE {
      MultipleZero(sz);
      SameMultiple(r - h * HBLKSIZE, 0, sz, StartOffset(h, p));
    } else {
      assert Covers(v, owner, 0, p / HBLKSIZE);
      forall b, q | Holds(v, b, q, p) ensures q == r {
        SmallHolder(h, q, p, r, sz);
      }
    }
  }

  lemma MultipleZero(sz: int)
    ensures MultipleOf(0, sz)
  {
    assert 0 == 0 * sz;
  }

  lemma SmallHolder(h: int, q: int, p: int, r: int, sz: int)
    requires sz > 0 && sz % WORD_BYTES == 0 && h == p / HBLKSIZE && h > 0
    requires MultipleOf(q - h * HBLKSIZE, sz) && q <= p < q + sz
    requires RoundedDown(h, r, sz, StartOffset(h, p))
    ensures q == r
  {
    OffsetInBlock(h, p);
    HolderOffset(q - h * HBLKSIZE, sz, p - h * HBLKSIZE, StartOffset(h, p));
    SameMultiple(q - h * HBLKSIZE, r - h * HBLKSIZE, sz, StartOffset(h, p));
  }

  lemma OffsetInBlock(h: int, p: int)
    requires h == p / HBLKSIZE
    ensures StartOffset(h, p) == p - h * HBLKSIZE - (p - h * HBLKSIZE) % WORD_BYTES
  {
  }

  lemma Rounded(off: int, sz: int)
    requires sz > 0 && off >= 0
    ensures MultipleOf(off - off % sz, sz) && off - off % sz <= off < off - off % sz + sz
  {
    assert off - off % sz == (off / sz) * sz;
    var k: nat := off / sz;
    assert off - off % sz == k * sz;
  }

  /** Aligning a pointer down to a word keeps it in its object. */
  lemma HolderOffset(x: int, sz: int, p: int, off: int)
    requires sz > 0 && sz % WORD_BYTES == 0 && MultipleOf(x, sz) && x <= p < x + sz && off == p - p % WORD_BYTES
    ensures x <= off < x + sz
  {
    var k: nat :| x == k * sz;
    var m := sz / WORD_BYTES;
    assert x == k * (m * WORD_BYTES) == (k * m) * WORD_BYTES;
    assert x % WORD_BYTES == 0;
  }
}
