/** The byte counts of the free lists add up to the free memory of the heap. */
module HeapTotals {
  import opened Sizes
  import opened Collections
  import opened HeaderIndex
  import opened HeapShape

  /** The block numbers covered by the blocks of list s. */
  ghost function Blocks(v: View, s: seq<int>): set<int>
    requires Heads(v, s)
  {
    if s == [] then {} else Interval(s[0], s[0] + Len(v[s[0]].hdr)) + Blocks(v, s[1..])
  }

  /** The block numbers covered by the lists from n on. */
  ghost function BlocksFrom(v: View, lists: seq<seq<int>>, n: nat): set<int>
    requires forall i | 0 <= i < |lists| :: Heads(v, lists[i])
    decreases |lists| - n
  {
    if n >= |lists| then {} else Blocks(v, lists[n]) + BlocksFrom(v, lists, n + 1)
  }

  lemma ExtentIff(v: View, owner: map<int, int>, h: int, b: int)
    requires Tiled(v, owner) && IsHead(v, h)
    ensures h <= b < h + Len(v[h].hdr) <==> b in owner && owner[b] == h
  {
    assert Extent(v, owner, h);
    assert b in owner ==> Covers(v, owner, 0, b);
  }

  lemma {:induction false} BlocksOwner(v: View, owner: map<int, int>, s: seq<int>)
    requires Tiled(v, owner) && Heads(v, s)
    ensures forall b :: b in Blocks(v, s) <==> b in owner && owner[b] in s
  {
    if s != [] {
      BlocksOwner(v, owner, s[1..]);
      forall b ensures b in Blocks(v, s) <==> b in owner && owner[b] in s {
        ExtentIff(v, owner, s[0], b);
        assert s == [s[0]] + s[1..];
      }
    }
  }

  /** The sizes of the blocks of a list without duplicates add up to the memory they cover. */
  lemma {:induction false} BlocksBytes(v: View, owner: map<int, int>, s: seq<int>)
    requires Tiled(v, owner) && Heads(v, s) && NoDup(s) && forall x | x in s :: FreeHead(v, x)
    ensures SumSz(v, s) == HBLKSIZE * |Blocks(v, s)|
  {
    if s != [] {
      BlocksBytes(v, owner, s[1..]);
      WholeFree(v, owner, s[0]);
      FirstApart(v, owner, s);
      UnionSize(Interval(s[0], s[0] + Len(v[s[0]].hdr)), Blocks(v, s[1..]));
    }
  }

  lemma WholeFree(v: View, owner: map<int, int>, h: int)
    requires Tiled(v, owner) && FreeHead(v, h)
    ensures v[h].hdr.sz == HBLKSIZE * |Interval(h, h + Len(v[h].hdr))|
  {
    assert Extent(v, owner, h);
    HeadOwnsItself(v, owner, 0, h);
  }

  lemma FirstApart(v: View, owner: map<int, int>, s: seq<int>)
    requires Tiled(v, owner) && Heads(v, s) && NoDup(s) && s != []
    ensures Interval(s[0], s[0] + Len(v[s[0]].hdr)) !! Blocks(v, s[1..])
  {
    BlocksOwner(v, owner, s[1..]);
    forall b | b in Interval(s[0], s[0] + Len(v[s[0]].hdr)) ensures b !in Blocks(v, s[1..]) {
      ExtentIff(v, owner, s[0], b);
    }
  }

  lemma UnionSize(a: set<int>, b: set<int>)
    requires a !! b
    ensures |a + b| == |a| + |b|
  {
  }

  /** Block x is on list n or a later one. */
  ghost predicate OnSome(lists: seq<seq<int>>, n: nat, x: int) {
    exists i :: n <= i < |lists| && x in lists[i]
  }

  lemma {:induction false} FromOwner(v: View, owner: map<int, int>, lists: seq<seq<int>>, n: nat)
    requires Tiled(v, owner) && forall i | 0 <= i < |lists| :: Heads(v, lists[i])
    ensures forall b :: b in BlocksFrom(v, lists, n) <==> b in owner && OnSome(lists, n, owner[b])
    decreases |lists| - n
  {
    if n < |lists| {
      FromOwner(v, owner, lists, n + 1);
      BlocksOwner(v, owner, lists[n]);
      forall b | b in owner ensures OnSome(lists, n, owner[b]) <==> owner[b] in lists[n] || OnSome(lists, n + 1, owner[b]) {
      }
    }
  }

  lemma {:induction false} FromBytes(v: View, owner: map<int, int>, fl: seq<int>, fb: seq<int>, lists: seq<seq<int>>, n: nat)
    requires Sound(v, owner, fl, fb, lists, 0) && n <= N_LISTS
    requires forall i | 0 <= i < |lists| :: Heads(v, lists[i])
    ensures SumFrom(fb, n) == HBLKSIZE * |BlocksFrom(v, lists, n)|
    decreases N_LISTS - n
  {
    if n < N_LISTS {
      FromBytes(v, owner, fl, fb, lists, n + 1);
      FromOwner(v, owner, lists, n + 1);
      BlocksOwner(v, owner, lists[n]);
      assert OneListOk(v, fl[n], fb[n], lists[n]);
      BlocksBytes(v, owner, lists[n]);
      var first, rest := Blocks(v, lists[n]), BlocksFrom(v, lists, n + 1);
      forall b | b in first ensures b !in rest {
        assert OnlyOn(lists, n, owner[b]);
      }
      assert |first + rest| == |first| + |rest|;
    }
  }

  /** The total of the byte counts of the lists is the free memory of the heap. */
  lemma ListTotals(v: View, owner: map<int, int>, fl: seq<int>, fb: seq<int>, lists: seq<seq<int>>)
    requires Sound(v, owner, fl, fb, lists, 0)
    ensures SumFrom(fb, 0) == HBLKSIZE * |FreeSet(v, owner)|
  {
    forall i | 0 <= i < |lists| ensures Heads(v, lists[i]) {
      assert OneListOk(v, fl[i], fb[i], lists[i]);
    }
    FromBytes(v, owner, fl, fb, lists, 0);
    FromOwner(v, owner, lists, 0);
    forall b ensures b in BlocksFrom(v, lists, 0) <==> b in FreeSet(v, owner) {
      if b in owner {
        assert Covers(v, owner, 0, b);
        if FreeAt(v, owner, b) {
          assert FreeHead(v, owner[b]);
          HeadOwnsItself(v, owner, 0, owner[b]);
          assert owner[b] in lists[HblkFlFromBlocks(Len(v[owner[b]].hdr))];
        }
      }
    }
    assert BlocksFrom(v, lists, 0) == FreeSet(v, owner);
  }

  /** The sum of the sizes of the blocks of s, rounded up to whole blocks (GC_add_block). */
  ghost function RoundedBytes(v: View, s: seq<int>): int
    requires Heads(v, s)
  {
    if s == [] then 0 else HBLKSIZE * Len(v[s[0]].hdr) + RoundedBytes(v, s[1..])
  }

  lemma {:induction false} RoundedIsCovered(v: View, owner: map<int, int>, s: seq<int>)
    requires Tiled(v, owner) && Heads(v, s) && NoDup(s)
    ensures RoundedBytes(v, s) == HBLKSIZE * |Blocks(v, s)|
  {
    if s != [] {
      RoundedIsCovered(v, owner, s[1..]);
      FirstApart(v, owner, s);
      HeadOwnsItself(v, owner, 0, s[0]);
      UnionSize(Interval(s[0], s[0] + Len(v[s[0]].hdr)), Blocks(v, s[1..]));
    }
  }

  /** GC_check_blocks never finds that blocks are lost: the blocks in use, visited once each, and the free memory
      make up the heap. */
  lemma NoBlockLost(v: View, owner: map<int, int>, visited: seq<int>)
    requires Tiled(v, owner) && NoDup(visited) && forall b :: b in visited <==> IsUsed(v, b)
    ensures Heads(v, visited)
    ensures RoundedBytes(v, visited) + HBLKSIZE * |FreeSet(v, owner)| == HBLKSIZE * |owner.Keys|
  {
    forall k | 0 <= k < |visited| ensures IsHead(v, visited[k]) {
      assert visited[k] in visited;
    }
    RoundedIsCovered(v, owner, visited);
    BlocksOwner(v, owner, visited);
    forall b ensures b in Blocks(v, visited) + FreeSet(v, owner) <==> b in owner {
      assert b in owner ==> Covers(v, owner, 0, b);
    }
    assert Blocks(v, visited) + FreeSet(v, owner) == owner.Keys;
    UnionSize(Blocks(v, visited), FreeSet(v, owner));
  }
}
