/**
 The heap as the marker sees it: memory words, objects laid out in blocks, roots, and reachability.

 In contracts, here and elsewhere, P == true is P, proved and used as one fact instead of part by part.
 */
module MarkGraph {
  import opened Sizes

  /** A range of memory that remains to be scanned. */
  datatype Entry = Entry(start: int, len: int)

  /** A block in use, at block number at, and the objects in it.  All of them have the same descriptor, which is
      the number of bytes to scan, or 0 for pointer-free objects. */
  datatype Block = Block(at: int, blocks: int, kind: int, descr: int, objs: seq<int>)

  /** The most objects a block can hold: HBLKSIZE / GRANULE_BYTES. */
  const MAX_OBJS := 256
  const INITIAL_MARK_STACK_SIZE := 4096

  predicate IsUncollectable(b: Block) {
    b.kind == UNCOLLECTABLE || b.kind == AUNCOLLECTABLE
  }

  /** mem holds the words of memory by address; objOf maps a word that is a pointer into an object to the base
      address of the object.  Such words lie between the plausible heap bounds.  Roots are ranges of memory
      and single words (registers). */
  datatype World = World(align: int, mem: map<int, int>, objOf: map<int, int>, least: int, greatest: int,
                         blocks: seq<Block>, descr: map<int, int>, ranges: seq<(int, int)>, ones: seq<int>)

  ghost predicate Good(w: World) {
    && (w.align == 4 || w.align == 8)
    && (forall x | x in w.objOf :: w.least <= x < w.greatest && w.objOf[x] in w.descr)
    && (forall o | o in w.descr :: w.descr[o] >= 0 && w.descr[o] % w.align == 0)
    && (forall i, j | 0 <= i < j < |w.blocks| :: w.blocks[i].at + w.blocks[i].blocks <= w.blocks[j].at)
    && (forall i | 0 <= i < |w.blocks| :: GoodBlock(w.blocks[i]))
    && NONE !in w.descr
    && |w.ranges| < INITIAL_MARK_STACK_SIZE / 2
    && (forall i, o {:trigger o in w.blocks[i].objs} | 0 <= i < |w.blocks| && o in w.blocks[i].objs ::
          o in w.descr && w.descr[o] == w.blocks[i].descr)
    && (forall i, j, o {:trigger o in w.blocks[i].objs, o in w.blocks[j].objs} |
          0 <= i < |w.blocks| && 0 <= j < |w.blocks| && o in w.blocks[i].objs && o in w.blocks[j].objs :: i == j)
    && (forall o {:trigger InSome(w, o)} | o in w.descr :: InSome(w, o))
  }

  predicate GoodBlock(b: Block) {
    b.at > 0 && b.blocks > 0 && |b.objs| <= MAX_OBJS && (b.kind == AUNCOLLECTABLE ==> b.descr == 0)
  }

  ghost predicate InSome(w: World, o: int) {
    exists i :: 0 <= i < |w.blocks| && o in w.blocks[i].objs
  }

  const NONE := -1

  /** The object a word points to, or NONE. */
  function ObjOf(w: World, x: int): int {
    if x in w.objOf then w.objOf[x] else NONE
  }

  function WordAt(w: World, p: int): int {
    if p in w.mem then w.mem[p] else 0
  }

  /** The object that the word at address p points to. */
  function Target(w: World, p: int): int {
    ObjOf(w, WordAt(w, p))
  }

  /** The address p is one of those looked at when the range e is scanned. */
  predicate Candidate(w: World, e: Entry, p: int)
    requires w.align > 0
  {
    e.start <= p && p + WORD_BYTES <= e.start + e.len && (p - e.start) % w.align == 0
  }

  /** The range of an object that is scanned. */
  function Range(w: World, o: int): Entry
    requires o in w.descr
  {
    Entry(o, w.descr[o])
  }

  /** Object a holds a pointer to object b. */
  ghost predicate Edge(w: World, a: int, b: int)
    requires w.align > 0
  {
    a in w.descr && b in w.descr && exists p :: Candidate(w, Range(w, a), p) && Target(w, p) == b
  }

  /** The address p holds a word of a root range. */
  ghost predicate RootLoc(w: World, p: int)
    requires w.align > 0
  {
    p % w.align == 0 && exists i :: 0 <= i < |w.ranges| && w.ranges[i].0 <= p && p + WORD_BYTES <= w.ranges[i].1
  }

  ghost predicate RootObj(w: World, o: int)
    requires w.align > 0
  {
    (exists p :: RootLoc(w, p) && Target(w, p) == o) || (exists i :: 0 <= i < |w.ones| && ObjOf(w, w.ones[i]) == o)
  }

  /** Object o is reachable from the roots or from the objects of u over n pointers. */
  ghost predicate ReachIn(w: World, u: set<int>, o: int, n: nat)
    requires w.align > 0
    decreases n
  {
    o in w.descr &&
    if n == 0 then o in u || RootObj(w, o)
    else exists q :: ReachIn(w, u, q, n - 1) && Edge(w, q, o)
  }

  ghost predicate Reachable(w: World, u: set<int>, o: int)
    requires w.align > 0
  {
    exists n: nat :: ReachIn(w, u, o, n)
  }

  lemma ReachStep(w: World, u: set<int>, q: int, p: int)
    requires Good(w) && Reachable(w, u, q) && q in w.descr && Candidate(w, Range(w, q), p) && Target(w, p) != NONE
    ensures Reachable(w, u, Target(w, p))
  {
    var n: nat :| ReachIn(w, u, q, n);
    var o := Target(w, p);
    assert o in w.descr;
    assert Edge(w, q, o);
    assert ReachIn(w, u, o, n + 1);
  }

  lemma ReachRoot(w: World, u: set<int>, o: int)
    requires Good(w) && o in w.descr && (o in u || RootObj(w, o))
    ensures Reachable(w, u, o)
  {
    assert ReachIn(w, u, o, 0);
  }

  /** A set of objects that holds u and the root objects and is closed under pointers holds all that is reachable. */
  lemma {:induction false} ClosedHoldsReachable(w: World, u: set<int>, m: set<int>, o: int, n: nat)
    requires Good(w) && u <= m && ReachIn(w, u, o, n)
    requires forall x | RootObj(w, x) && x != NONE :: x in m
    requires forall a, b | a in m && Edge(w, a, b) :: b in m
    ensures o in m
    decreases n
  {
    if n > 0 {
      var q :| ReachIn(w, u, q, n - 1) && Edge(w, q, o);
      ClosedHoldsReachable(w, u, m, q, n - 1);
    }
  }

  // ------------------------------------------------------------------------- marked objects and the stack

  /** The address p will be looked at. */
  ghost predicate Pending(w: World, s: seq<Entry>, p: int)
    requires w.align > 0
  {
    exists k :: 0 <= k < |s| && Candidate(w, s[k], p)
  }

  /** The word at p points to no object, or to a marked one, or will be looked at. */
  ghost predicate Resolved(w: World, m: set<int>, s: seq<Entry>, p: int)
    requires w.align > 0
  {
    Target(w, p) == NONE || Target(w, p) in m || Pending(w, s, p)
  }

  ghost predicate AllResolved(w: World, m: set<int>, s: seq<Entry>, e: Entry)
    requires w.align > 0
  {
    forall p {:trigger Resolved(w, m, s, p)} | Candidate(w, e, p) :: Resolved(w, m, s, p)
  }

  /** From m, s to m1, s1 nothing was lost: what was resolved is, and the contents of newly marked objects are. */
  ghost predicate Keeps(w: World, m: set<int>, s: seq<Entry>, m1: set<int>, s1: seq<Entry>)
    requires w.align > 0
  {
    && m <= m1
    && (forall p {:trigger Resolved(w, m1, s1, p)} | Resolved(w, m, s, p) :: Resolved(w, m1, s1, p))
    && (forall o {:trigger o in m1} | o in m1 && o !in m && o in w.descr :: AllResolved(w, m1, s1, Range(w, o)))
  }

  lemma KeepsTrans(w: World, m: set<int>, s: seq<Entry>, m1: set<int>, s1: seq<Entry>, m2: set<int>, s2: seq<Entry>)
    requires w.align > 0 && Keeps(w, m, s, m1, s1) == true && Keeps(w, m1, s1, m2, s2) == true
    ensures Keeps(w, m, s, m2, s2) == true
  {
    forall p {:trigger Resolved(w, m2, s2, p)} | Resolved(w, m, s, p) ensures Resolved(w, m2, s2, p) {
      assert Resolved(w, m1, s1, p);
    }
    forall o {:trigger o in m2} | o in m2 && o !in m && o in w.descr ensures AllResolved(w, m2, s2, Range(w, o)) {
      if o in m1 {
        KeepsResolved(w, m1, s1, m2, s2, Range(w, o));
      }
    }
  }

  lemma KeepsResolved(w: World, m: set<int>, s: seq<Entry>, m1: set<int>, s1: seq<Entry>, e: Entry)
    requires w.align > 0 && Keeps(w, m, s, m1, s1) && AllResolved(w, m, s, e)
    ensures AllResolved(w, m1, s1, e)
  {
    forall p {:trigger Resolved(w, m1, s1, p)} | Candidate(w, e, p) ensures Resolved(w, m1, s1, p) {
      assert Resolved(w, m, s, p);
    }
  }

  lemma KeepsRefl(w: World, m: set<int>, s: seq<Entry>)
    requires w.align > 0
    ensures Keeps(w, m, s, m, s) == true
  {
  }

  /** Pushing a range resolves it and loses nothing. */
  lemma PushKeeps(w: World, m: set<int>, s: seq<Entry>, e: Entry)
    requires w.align > 0
    ensures Keeps(w, m, s, m, s + [e]) == true && AllResolved(w, m, s + [e], e) == true
  {
    var s1 := s + [e];
    forall p {:trigger Resolved(w, m, s1, p)} | Resolved(w, m, s, p) ensures Resolved(w, m, s1, p) {
      if Pending(w, s, p) {
        var k :| 0 <= k < |s| && Candidate(w, s[k], p);
        assert Candidate(w, s1[k], p);
      }
    }
    forall p {:trigger Resolved(w, m, s1, p)} | Candidate(w, e, p) ensures Resolved(w, m, s1, p) {
      assert Candidate(w, s1[|s|], p);
    }
  }

  /** Marking object o whose contents are resolved. */
  lemma MarkKeeps(w: World, m: set<int>, s: seq<Entry>, o: int, s1: seq<Entry>)
    requires w.align > 0 && Keeps(w, m, s, m, s1) == true
    requires o in w.descr && AllResolved(w, m, s1, Range(w, o)) == true
    ensures Keeps(w, m, s, m + {o}, s1) == true
  {
    forall p {:trigger Resolved(w, m + {o}, s1, p)} | Resolved(w, m, s, p) ensures Resolved(w, m + {o}, s1, p) {
      assert Resolved(w, m, s1, p);
    }
    forall p {:trigger Resolved(w, m + {o}, s1, p)} | Candidate(w, Range(w, o), p) ensures Resolved(w, m + {o}, s1, p) {
      assert Resolved(w, m, s1, p);
    }
  }

  /** All marked objects of blocks below h are scanned or about to be. */
  ghost predicate ScannedBelow(w: World, m: set<int>, s: seq<Entry>, h: int)
    requires Good(w)
  {
    forall i, o {:trigger o in w.blocks[i].objs} | 0 <= i < |w.blocks| && o in w.blocks[i].objs && o in m &&
      w.blocks[i].at < h :: AllResolved(w, m, s, Range(w, o))
  }

  /** The same for blocks of uncollectable objects only; all other marked objects are scanned or about to be. */
  ghost predicate UncScannedBelow(w: World, m: set<int>, s: seq<Entry>, h: int)
    requires Good(w)
  {
    forall i, o {:trigger o in w.blocks[i].objs} | 0 <= i < |w.blocks| && o in w.blocks[i].objs && o in m &&
      (w.blocks[i].kind != UNCOLLECTABLE || w.blocks[i].at < h) :: AllResolved(w, m, s, Range(w, o))
  }

  ghost predicate AllScanned(w: World, m: set<int>, s: seq<Entry>)
    requires Good(w)
  {
    forall o {:trigger o in m} | o in m && o in w.descr :: AllResolved(w, m, s, Range(w, o))
  }

  ghost predicate RootsDone(w: World, m: set<int>, s: seq<Entry>)
    requires Good(w)
  {
    && (forall p {:trigger RootLoc(w, p)} | RootLoc(w, p) :: Resolved(w, m, s, p))
    && (forall i {:trigger w.ones[i]} | 0 <= i < |w.ones| :: ObjOf(w, w.ones[i]) == NONE || ObjOf(w, w.ones[i]) in m)
  }

  lemma KeepsScanned(w: World, m: set<int>, s: seq<Entry>, m1: set<int>, s1: seq<Entry>, h: int)
    requires Good(w) && Keeps(w, m, s, m1, s1)
    ensures ScannedBelow(w, m, s, h) ==> ScannedBelow(w, m1, s1, h) == true
    ensures UncScannedBelow(w, m, s, h) ==> UncScannedBelow(w, m1, s1, h) == true
    ensures AllScanned(w, m, s) ==> AllScanned(w, m1, s1) == true
    ensures RootsDone(w, m, s) ==> RootsDone(w, m1, s1) == true
  {
    forall o | o in m && o in w.descr && AllResolved(w, m, s, Range(w, o)) ensures AllResolved(w, m1, s1, Range(w, o)) {
      KeepsResolved(w, m, s, m1, s1, Range(w, o));
    }
    if RootsDone(w, m, s) {
      forall p {:trigger RootLoc(w, p)} | RootLoc(w, p) ensures Resolved(w, m1, s1, p) {
        assert Resolved(w, m, s, p);
      }
    }
  }

  /** When nothing is left to scan and everything marked was scanned, what is marked is what is reachable. */
  lemma MarkedIsReachable(w: World, u: set<int>, m: set<int>)
    requires Good(w) && u <= m && m <= w.descr.Keys && AllScanned(w, m, []) && RootsDone(w, m, []) && Precise(w, u, m, [])
    ensures forall o :: o in m <==> Reachable(w, u, o)
  {
    forall o | Reachable(w, u, o) ensures o in m {
      var n: nat :| ReachIn(w, u, o, n);
      forall a, b | a in m && Edge(w, a, b) ensures b in m {
        var p :| Candidate(w, Range(w, a), p) && Target(w, p) == b;
        assert AllResolved(w, m, [], Range(w, a)) && Resolved(w, m, [], p);
      }
      forall x | RootObj(w, x) && x != NONE ensures x in m {
        if exists p :: RootLoc(w, p) && Target(w, p) == x {
          var p :| RootLoc(w, p) && Target(w, p) == x;
          assert Resolved(w, m, [], p);
        }
      }
      ClosedHoldsReachable(w, u, m, o, n);
    }
  }

  // -------------------------------------------------------------------------------------------- precision

  /** Everything marked, and everything pointed to from where the marker will look, is reachable. */
  ghost predicate Precise(w: World, u: set<int>, m: set<int>, s: seq<Entry>)
    requires w.align > 0
  {
    && (forall o {:trigger o in m} | o in m :: Reachable(w, u, o))
    && (forall k {:trigger PreciseEntry(w, u, s[k])} | 0 <= k < |s| :: PreciseEntry(w, u, s[k]))
  }

  ghost predicate PreciseEntry(w: World, u: set<int>, e: Entry)
    requires w.align > 0
  {
    forall p {:trigger Candidate(w, e, p)} | Candidate(w, e, p) :: Target(w, p) == NONE || Reachable(w, u, Target(w, p))
  }

  lemma PreciseRange(w: World, u: set<int>, o: int)
    requires Good(w) && o in w.descr && Reachable(w, u, o)
    ensures PreciseEntry(w, u, Range(w, o))
  {
    forall p {:trigger Candidate(w, Range(w, o), p)} | Candidate(w, Range(w, o), p)
      ensures Target(w, p) == NONE || Reachable(w, u, Target(w, p))
    {
      if Target(w, p) != NONE {
        ReachStep(w, u, o, p);
      }
    }
  }

  /** The work that is on the stack. */
  function Work(s: seq<Entry>): nat
  {
    if s == [] then 0 else Work(s[..|s| - 1]) + (if s[|s| - 1].len < 0 then 0 else s[|s| - 1].len) + 1
  }

  lemma WorkPush(s: seq<Entry>, e: Entry)
    ensures Work(s + [e]) == Work(s) + (if e.len < 0 then 0 else e.len) + 1
  {
    assert (s + [e])[..|s|] == s;
  }

  // ------------------------------------------------------------------------------- closed sets of objects

  /** m holds the root objects and everything that its objects point to. */
  ghost predicate Closed(w: World, m: set<int>)
    requires Good(w)
  {
    m <= w.descr.Keys && AllScanned(w, m, []) && RootsDone(w, m, [])
  }

  lemma PreciseSelf(w: World, u: set<int>, m: set<int>)
    requires Good(w) && m <= w.descr.Keys && m <= u
    ensures Precise(w, u, m, []) == true
  {
    forall o {:trigger o in m} | o in m ensures Reachable(w, u, o) {
      ReachRoot(w, u, o);
    }
  }

  lemma ClosedIsReachable(w: World, m: set<int>)
    requires Good(w) && Closed(w, m)
    ensures forall o :: o in m <==> Reachable(w, m, o)
  {
    PreciseSelf(w, m, m);
    MarkedIsReachable(w, m, m);
  }

  /** What is reachable from u is closed. */
  lemma ReachableIsClosed(w: World, u: set<int>, m: set<int>)
    requires Good(w) && m <= w.descr.Keys && forall o :: o in m <==> Reachable(w, u, o)
    ensures Closed(w, m) == true
  {
    forall o {:trigger o in m} | o in m && o in w.descr ensures AllResolved(w, m, [], Range(w, o)) {
      forall p {:trigger Resolved(w, m, [], p)} | Candidate(w, Range(w, o), p) ensures Resolved(w, m, [], p) {
        if Target(w, p) != NONE {
          ReachStep(w, u, o, p);
        }
      }
    }
    forall p {:trigger RootLoc(w, p)} | RootLoc(w, p) ensures Resolved(w, m, [], p) {
      if Target(w, p) != NONE {
        ReachRoot(w, u, Target(w, p));
      }
    }
    forall i {:trigger w.ones[i]} | 0 <= i < |w.ones| ensures ObjOf(w, w.ones[i]) == NONE || ObjOf(w, w.ones[i]) in m {
      if ObjOf(w, w.ones[i]) != NONE {
        ReachRoot(w, u, ObjOf(w, w.ones[i]));
      }
    }
  }

  /** Going on from objects that are reachable from u leads to objects reachable from u. */
  lemma {:induction false} ReachTrans(w: World, u: set<int>, u1: set<int>, o: int, n: nat)
    requires Good(w) && ReachIn(w, u1, o, n) && forall x | x in u1 :: Reachable(w, u, x)
    ensures Reachable(w, u, o)
    decreases n
  {
    if n == 0 {
      if o !in u1 {
        ReachRoot(w, u, o);
      }
    } else {
      var q :| ReachIn(w, u1, q, n - 1) && Edge(w, q, o);
      ReachTrans(w, u, u1, q, n - 1);
      var p :| Candidate(w, Range(w, q), p) && Target(w, p) == o;
      ReachStep(w, u, q, p);
    }
  }

  lemma ReachSame(w: World, u: set<int>, u1: set<int>)
    requires Good(w) && u <= w.descr.Keys && u1 <= w.descr.Keys
    requires (forall x | x in u1 :: Reachable(w, u, x)) && (forall x | x in u :: Reachable(w, u1, x))
    ensures forall o :: Reachable(w, u, o) <==> Reachable(w, u1, o)
  {
    forall o ensures Reachable(w, u, o) <==> Reachable(w, u1, o) {
      if Reachable(w, u, o) {
        var n: nat :| ReachIn(w, u, o, n);
        ReachTrans(w, u1, u, o, n);
      }
      if Reachable(w, u1, o) {
        var n: nat :| ReachIn(w, u1, o, n);
        ReachTrans(w, u, u1, o, n);
      }
    }
  }

  // -------------------------------------------------------------------------------- finalization mark procedures

  /** How the objects to be kept for a finalizer are found. */
  datatype MarkProc = Normal | IgnoreSelf | NullProc | WhenUnreachable

  predicate Follows(mp: MarkProc, o: int, x: int) {
    !mp.NullProc? && (mp.IgnoreSelf? ==> x != o)
  }

  /** The objects that o points to, as far as the mark procedure looks at them. */
  ghost function Succ(w: World, o: int, mp: MarkProc): set<int>
    requires w.align > 0
  {
    set x | x in w.descr && Follows(mp, o, x) && Edge(w, o, x)
  }

  /** The pointers in o that the mark procedure looks at are resolved. */
  ghost predicate SuccResolved(w: World, o: int, mp: MarkProc, m: set<int>, s: seq<Entry>)
    requires w.align > 0 && o in w.descr
  {
    forall p {:trigger Resolved(w, m, s, p)} | Candidate(w, Range(w, o), p) && Follows(mp, o, Target(w, p)) ::
      Resolved(w, m, s, p)
  }

  lemma SuccMarked(w: World, o: int, mp: MarkProc, m: set<int>)
    requires Good(w) && o in w.descr && SuccResolved(w, o, mp, m, [])
    ensures Succ(w, o, mp) <= m
  {
    forall x | x in Succ(w, o, mp) ensures x in m {
      var p :| Candidate(w, Range(w, o), p) && Target(w, p) == x;
      assert Resolved(w, m, [], p);
    }
  }

  lemma KeepsSucc(w: World, o: int, mp: MarkProc, m: set<int>, s: seq<Entry>, m1: set<int>, s1: seq<Entry>)
    requires w.align > 0 && o in w.descr && Keeps(w, m, s, m1, s1) == true && SuccResolved(w, o, mp, m, s)
    ensures SuccResolved(w, o, mp, m1, s1) == true
  {
    forall p {:trigger Resolved(w, m1, s1, p)} | Candidate(w, Range(w, o), p) && Follows(mp, o, Target(w, p))
      ensures Resolved(w, m1, s1, p)
    {
      assert Resolved(w, m, s, p);
    }
  }

  /** The words of o that the mark procedure looks at point to objects reachable from its successors. */
  lemma SuccReach(w: World, o: int, mp: MarkProc, u: set<int>, p: int)
    requires Good(w) && o in w.descr && Candidate(w, Range(w, o), p) && Succ(w, o, mp) <= u
    requires Target(w, p) != NONE && Follows(mp, o, Target(w, p))
    ensures Reachable(w, u, Target(w, p))
  {
    assert Edge(w, o, Target(w, p));
    ReachRoot(w, u, Target(w, p));
  }

  lemma SuccPrecise(w: World, o: int, mp: MarkProc, u: set<int>)
    requires Good(w) && o in w.descr && Succ(w, o, mp) <= u && (mp == Normal || mp == WhenUnreachable)
    ensures PreciseEntry(w, u, Range(w, o)) == true
  {
    forall p {:trigger Candidate(w, Range(w, o), p)} | Candidate(w, Range(w, o), p)
      ensures Target(w, p) == NONE || Reachable(w, u, Target(w, p))
    {
      if Target(w, p) != NONE {
        SuccReach(w, o, mp, u, p);
      }
    }
  }
}
