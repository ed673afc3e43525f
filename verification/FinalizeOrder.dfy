/** Which objects are ready to be finalized: reachability through registered objects, independent of any order. */
module FinalizeOrder {
  import opened MarkGraph
  import opened HashTables
  import opened MarkSteps

  /** What is registered for an object; id tells the records apart. */
  datatype Rec = Rec(id: nat, fn: int, cd: int, size: int, mp: MarkProc)

  type Registry = map<Address, Rec>

  /** The objects that the registered objects of ks point to, as their mark procedures see it. */
  ghost function SuccAll(w: World, reg: Registry, ks: set<Address>): set<int>
    requires w.align > 0
  {
    set k, x | k in ks && k in reg && x in Succ(w, k, reg[k].mp) :: x
  }

  /** From where everything reachable is marked once the registered objects of ks were dealt with, the objects of
      over with a mark stack overflow. */
  ghost function Source(w: World, m0: set<int>, reg: Registry, ks: set<Address>, over: set<int>): set<int>
    requires w.align > 0
  {
    m0 + SuccAll(w, reg, ks) + over
  }

  /** What is marked is what is reachable from src. */
  ghost predicate MarkedFrom(w: World, m: set<int>, src: set<int>)
    requires w.align > 0
  {
    forall x {:trigger MarkedIff(w, m, src, x)} :: MarkedIff(w, m, src, x)
  }

  ghost predicate MarkedIff(w: World, m: set<int>, src: set<int>, x: int)
    requires w.align > 0
  {
    x in m <==> Reachable(w, src, x)
  }

  ghost predicate Objects(w: World, reg: Registry) {
    forall k {:trigger k in reg} | k in reg :: k in w.descr
  }

  lemma SourceObjects(w: World, m0: set<int>, reg: Registry, ks: set<Address>, over: set<int>)
    requires Good(w) && m0 <= w.descr.Keys && over <= w.descr.Keys
    ensures Source(w, m0, reg, ks, over) <= w.descr.Keys
  {
  }

  /** A registered object that is marked already adds nothing. */
  lemma SourceMarked(w: World, m0: set<int>, reg: Registry, ks: set<Address>, over: set<int>, m: set<int>, k: Address)
    requires Good(w) && Objects(w, reg) && k in reg && k in m && m <= w.descr.Keys && m0 <= w.descr.Keys
    requires over <= w.descr.Keys
    requires MarkedFrom(w, m, Source(w, m0, reg, ks, over)) && Closed(w, m)
    ensures MarkedFrom(w, m, Source(w, m0, reg, ks + {k}, over)) == true
  {
    var src, src1 := Source(w, m0, reg, ks, over), Source(w, m0, reg, ks + {k}, over);
    SourceObjects(w, m0, reg, ks, over);
    SourceObjects(w, m0, reg, ks + {k}, over);
    forall x | x in src ensures Reachable(w, src1, x) {
      SourceGrows(w, m0, reg, ks, k, over, x);
      ReachRoot(w, src1, x);
    }
    forall x | x in src1 ensures Reachable(w, src, x) {
      if x in src {
        ReachRoot(w, src, x);
      } else {
        SuccOfNew(w, m0, reg, ks, k, over, x);
        SuccClosed(w, m, k, reg[k].mp, x);
        assert MarkedIff(w, m, src, x);
      }
    }
    ReachSame(w, src, src1);
    forall x {:trigger MarkedIff(w, m, src1, x)} ensures MarkedIff(w, m, src1, x) {
      assert MarkedIff(w, m, src, x);
    }
  }

  lemma SourceGrows(w: World, m0: set<int>, reg: Registry, ks: set<Address>, k: Address, over: set<int>, x: int)
    requires w.align > 0 && x in Source(w, m0, reg, ks, over)
    ensures x in Source(w, m0, reg, ks + {k}, over)
  {
    if x in SuccAll(w, reg, ks) {
      var c :| c in ks && c in reg && x in Succ(w, c, reg[c].mp);
      assert c in ks + {k};
    }
  }

  lemma SuccOfNew(w: World, m0: set<int>, reg: Registry, ks: set<Address>, k: Address, over: set<int>, x: int)
    requires w.align > 0 && k in reg && x in Source(w, m0, reg, ks + {k}, over) && x !in Source(w, m0, reg, ks, over)
    ensures x in Succ(w, k, reg[k].mp)
  {
    var c :| c in ks + {k} && c in reg && x in Succ(w, c, reg[c].mp);
  }

  /** What a marked object points to is marked. */
  lemma SuccClosed(w: World, m: set<int>, k: int, mp: MarkProc, x: int)
    requires Good(w) && Closed(w, m) && k in m && x in Succ(w, k, mp)
    ensures x in m
  {
    assert AllResolved(w, m, [], Range(w, k));
    var p :| Candidate(w, Range(w, k), p) && Target(w, p) == x;
    assert Resolved(w, m, [], p);
  }

  /** Marking from a registered object, with or without an overflow. */
  lemma SourceStep(w: World, m0: set<int>, reg: Registry, ks: set<Address>, over: set<int>, m: set<int>, k: Address,
                   overflow: bool, m1: set<int>)
    requires Good(w) && Objects(w, reg) && k in reg && m <= w.descr.Keys && m0 <= w.descr.Keys && over <= w.descr.Keys
    requires MarkedFrom(w, m, Source(w, m0, reg, ks, over)) == true
    requires MarkedFrom(w, m1, m + if overflow then {k} else Succ(w, k, reg[k].mp)) == true
    ensures MarkedFrom(w, m1, Source(w, m0, reg, ks + {k}, if overflow then over + {k} else over)) == true
  {
    var src, s1 := Source(w, m0, reg, ks, over), m + if overflow then {k} else Succ(w, k, reg[k].mp);
    var src1 := Source(w, m0, reg, ks + {k}, if overflow then over + {k} else over);
    SourceObjects(w, m0, reg, ks, over);
    SourceObjects(w, m0, reg, ks + {k}, if overflow then over + {k} else over);
    forall x | x in s1 ensures Reachable(w, src1, x) {
      if x in m {
        assert MarkedIff(w, m, src, x);
        var n: nat :| ReachIn(w, src, x, n);
        forall y | y in src ensures Reachable(w, src1, y) {
          SourceGrows(w, m0, reg, ks, k, over, y);
          ReachRoot(w, src1, y);
        }
        ReachTrans(w, src1, src, x, n);
      } else {
        ReachRoot(w, src1, x);
      }
    }
    forall x | x in src1 ensures Reachable(w, s1, x) {
      StepBack(w, m0, reg, ks, over, m, k, overflow, x);
    }
    ReachSame(w, s1, src1);
    forall x {:trigger MarkedIff(w, m1, src1, x)} ensures MarkedIff(w, m1, src1, x) {
      assert MarkedIff(w, m1, s1, x);
    }
  }

  lemma StepBack(w: World, m0: set<int>, reg: Registry, ks: set<Address>, over: set<int>, m: set<int>, k: Address,
                 overflow: bool, x: int)
    requires Good(w) && Objects(w, reg) && k in reg && m <= w.descr.Keys && m0 <= w.descr.Keys && over <= w.descr.Keys
    requires MarkedFrom(w, m, Source(w, m0, reg, ks, over)) == true
    requires x in Source(w, m0, reg, ks + {k}, if overflow then over + {k} else over)
    ensures Reachable(w, m + if overflow then {k} else Succ(w, k, reg[k].mp), x)
  {
    var src, s1 := Source(w, m0, reg, ks, over), m + if overflow then {k} else Succ(w, k, reg[k].mp);
    SourceObjects(w, m0, reg, ks, over);
    if x in src {
      ReachRoot(w, src, x);
      assert MarkedIff(w, m, src, x);
      ReachRoot(w, s1, x);
    } else if overflow && x == k {
      ReachRoot(w, s1, x);
    } else {
      SuccOfNew(w, m0, reg, ks, k, over, x);
      if overflow {
        ReachRoot(w, s1, k);
        var p :| Candidate(w, Range(w, k), p) && Target(w, p) == x;
        ReachStep(w, s1, k, p);
      } else {
        ReachRoot(w, s1, x);
      }
    }
  }

  // ---------------------------------------------------------------------------------------- the ordering theorem

  /** There is a path of n > 0 pointers from a to b. */
  ghost predicate PathIn(w: World, a: int, b: int, n: nat)
    requires w.align > 0
    decreases n
  {
    n > 0 && if n == 1 then Edge(w, a, b) else exists q :: PathIn(w, a, q, n - 1) && Edge(w, q, b)
  }

  ghost predicate Path(w: World, a: int, b: int)
    requires w.align > 0
  {
    exists n: nat :: PathIn(w, a, b, n)
  }

  /** Object x is reachable by a path from a registered object that is not in m0. */
  ghost predicate Behind(w: World, m0: set<int>, reg: Registry, x: int)
    requires w.align > 0
  {
    exists k {:trigger Path(w, k, x)} :: k in reg && k !in m0 && Path(w, k, x)
  }

  ghost predicate AllNormal(reg: Registry) {
    forall k {:trigger reg[k]} | k in reg :: reg[k].mp == Normal
  }

  lemma {:induction false} BehindIsReachable(w: World, m0: set<int>, reg: Registry, k: Address, x: int, n: nat, u: set<int>)
    requires Good(w) && AllNormal(reg) && k in reg && PathIn(w, k, x, n)
    requires SuccAll(w, reg, reg.Keys) <= u && u <= w.descr.Keys
    ensures Reachable(w, u, x)
    decreases n
  {
    if n == 1 {
      assert x in Succ(w, k, reg[k].mp);
      assert x in SuccAll(w, reg, reg.Keys);
      ReachRoot(w, u, x);
    } else {
      var q :| PathIn(w, k, q, n - 1) && Edge(w, q, x);
      BehindIsReachable(w, m0, reg, k, q, n - 1, u);
      var p :| Candidate(w, Range(w, q), p) && Target(w, p) == x;
      ReachStep(w, u, q, p);
    }
  }

  lemma SourceIsBehind(w: World, m0: set<int>, reg: Registry, over: set<int>, x: int)
    requires Good(w) && Closed(w, m0) == true && AllNormal(reg) && Objects(w, reg) && x in w.descr
    requires x in Source(w, m0, reg, reg.Keys, over) || RootObj(w, x)
    ensures x in m0 || Behind(w, m0, reg, x) || x in over
  {
    if RootObj(w, x) {
      ClosedIsReachable(w, m0);
      ReachRoot(w, m0, x);
    } else if x in SuccAll(w, reg, reg.Keys) {
      var k :| k in reg && x in Succ(w, k, reg[k].mp);
      if k in m0 {
        SuccClosed(w, m0, k, reg[k].mp, x);
      } else {
        assert PathIn(w, k, x, 1);
        assert Path(w, k, x);
      }
    }
  }

  lemma EdgeIsBehind(w: World, m0: set<int>, reg: Registry, over: set<int>, q: int, x: int)
    requires Good(w) && Closed(w, m0) == true && AllNormal(reg) && Objects(w, reg) && over <= reg.Keys - m0
    requires (q in m0 || Behind(w, m0, reg, q) || q in over) && Edge(w, q, x)
    ensures x in m0 || Behind(w, m0, reg, x)
  {
    if q in m0 {
      assert x in Succ(w, q, Normal);
      SuccClosed(w, m0, q, Normal, x);
    } else if Behind(w, m0, reg, q) {
      var k :| k in reg && k !in m0 && Path(w, k, q);
      var i: nat :| PathIn(w, k, q, i);
      assert PathIn(w, k, x, i + 1);
      assert Path(w, k, x);
    } else {
      assert PathIn(w, q, x, 1);
      assert Path(w, q, x);
    }
  }

  /** What is marked in the end is what was marked before, what is behind registered objects that were not, and the
      objects whose marking overflowed. */
  lemma {:induction false} MarkedIsBehind(w: World, m0: set<int>, reg: Registry, over: set<int>, x: int, n: nat)
    requires Good(w) && Closed(w, m0) && AllNormal(reg) && Objects(w, reg)
    requires over <= reg.Keys - m0
    requires ReachIn(w, Source(w, m0, reg, reg.Keys, over), x, n)
    ensures x in m0 || Behind(w, m0, reg, x) || x in over
    decreases n
  {
    if n == 0 {
      SourceIsBehind(w, m0, reg, over, x);
    } else {
      var q :| ReachIn(w, Source(w, m0, reg, reg.Keys, over), q, n - 1) && Edge(w, q, x);
      MarkedIsBehind(w, m0, reg, over, q, n - 1);
      EdgeIsBehind(w, m0, reg, over, q, x);
    }
  }

  /** With ordinary finalizers, a registered object stays unmarked exactly when it is unreachable, not reachable by a
      path from an unreachable registered object, and its own marking did not overflow. */
  lemma ReadyIff(w: World, m0: set<int>, reg: Registry, over: set<int>, m: set<int>, k: Address)
    requires Good(w) && Closed(w, m0) && AllNormal(reg) && Objects(w, reg) && k in reg
    requires over <= reg.Keys - m0 && MarkedFrom(w, m, Source(w, m0, reg, reg.Keys, over))
    ensures k !in m <==> k !in m0 && !Behind(w, m0, reg, k) && k !in over
  {
    var src := Source(w, m0, reg, reg.Keys, over);
    SourceObjects(w, m0, reg, reg.Keys, over);
    assert MarkedIff(w, m, src, k);
    if k in m {
      var n: nat :| ReachIn(w, src, k, n);
      MarkedIsBehind(w, m0, reg, over, k, n);
    }
    if k in m0 || k in over {
      ReachRoot(w, src, k);
    }
    if Behind(w, m0, reg, k) {
      var c :| c in reg && c !in m0 && Path(w, c, k);
      var n: nat :| PathIn(w, c, k, n);
      BehindIsReachable(w, m0, reg, c, k, n, src);
    }
  }

  /** An object on a cycle is never ready. */
  lemma CycleNeverReady(w: World, m0: set<int>, reg: Registry, over: set<int>, m: set<int>, k: Address)
    requires Good(w) && Closed(w, m0) && AllNormal(reg) && Objects(w, reg) && k in reg && Path(w, k, k)
    requires over <= reg.Keys - m0 && MarkedFrom(w, m, Source(w, m0, reg, reg.Keys, over))
    ensures k in m
  {
    ReadyIff(w, m0, reg, over, m, k);
  }

  /** Whatever a path leads to from a registered object is marked. */
  lemma ContentsMarked(w: World, m0: set<int>, reg: Registry, over: set<int>, m: set<int>, k: Address, x: int)
    requires Good(w) && m0 <= w.descr.Keys && AllNormal(reg) && Objects(w, reg) && k in reg && Path(w, k, x)
    requires over <= w.descr.Keys && MarkedFrom(w, m, Source(w, m0, reg, reg.Keys, over))
    ensures x in m
  {
    SourceObjects(w, m0, reg, reg.Keys, over);
    var n: nat :| PathIn(w, k, x, n);
    BehindIsReachable(w, m0, reg, k, x, n, Source(w, m0, reg, reg.Keys, over));
    assert MarkedIff(w, m, Source(w, m0, reg, reg.Keys, over), x);
  }

  // ------------------------------------------------------------------------- when an object is withheld

  /** Marking from an object overflowed only if there was not less ahead of it, at the start, than the stack holds. */
  ghost predicate Crowded(w: World, cap: nat, m0: set<int>, reg: Registry, over: set<int>)
    requires w.align > 0
  {
    forall k: Address {:trigger CrowdedAt(w, cap, m0, reg, k)} | k in over :: CrowdedAt(w, cap, m0, reg, k)
  }

  ghost predicate CrowdedAt(w: World, cap: nat, m0: set<int>, reg: Registry, k: Address)
    requires w.align > 0
  {
    k in reg && k in w.descr && |Ahead(w, m0, k, reg[k].mp)| >= cap
  }

  /** If k is the only registered object, and not marked: once it was dealt with it is in over exactly if marking from
      it overflows; until then nothing was marked. */
  ghost predicate Lone(w: World, cap: nat, m0: set<int>, reg: Registry, ks: set<Address>, over: set<int>, m: set<int>, len: nat) {
    forall k: Address {:trigger LoneAt(w, cap, m0, reg, ks, over, m, len, k)} | k in reg && reg.Keys == {k} && k !in m0 ::
      LoneAt(w, cap, m0, reg, ks, over, m, len, k)
  }

  ghost predicate LoneAt(w: World, cap: nat, m0: set<int>, reg: Registry, ks: set<Address>, over: set<int>, m: set<int>,
                         len: nat, k: Address)
    requires k in reg
  {
    if k in ks then (k in over <==> Overflows(w, cap, m0, k, reg[k].mp)) else m == m0 && len == cap && over == {}
  }

  lemma CrowdedStep(w: World, cap: nat, m0: set<int>, reg: Registry, over: set<int>, m: set<int>, len: nat, k: Address)
    requires Good(w) == true && Crowded(w, cap, m0, reg, over) && k in reg && k in w.descr && m0 <= m && cap <= len
    requires Closed(w, m) == true && Overflows(w, len, m, k, reg[k].mp)
    ensures Crowded(w, cap, m0, reg, over + {k}) == true
  {
    OverflowNeeds(w, len, m, k, reg[k].mp);
    AheadShrinks(w, m0, m, k, reg[k].mp);
    forall c: Address {:trigger CrowdedAt(w, cap, m0, reg, c)} | c in over + {k} ensures CrowdedAt(w, cap, m0, reg, c) {
      assert c in over ==> CrowdedAt(w, cap, m0, reg, c);
    }
  }

  lemma LoneStep(w: World, cap: nat, m0: set<int>, reg: Registry, ks: set<Address>, over: set<int>, m: set<int>, len: nat,
                 k: Address, over1: set<int>, m1: set<int>, len1: nat)
    requires Lone(w, cap, m0, reg, ks, over, m, len) && k in reg && k !in ks && m0 <= m
    requires over1 == if k !in m && Overflows(w, len, m, k, reg[k].mp) then over + {k} else over
    ensures Lone(w, cap, m0, reg, ks + {k}, over1, m1, len1) == true
  {
    assert reg.Keys == {k} && k !in m0 ==> LoneAt(w, cap, m0, reg, ks, over, m, len, k);
  }

  lemma PathStays(w: World, o: int, x: int, n: nat, u: set<int>)
    requires Good(w) && o in w.descr && PathIn(w, o, x, n) && Succ(w, o, Normal) <= u
    ensures Reachable(w, u, x)
    decreases n
  {
    if n == 1 {
      assert x in Succ(w, o, Normal);
      ReachRoot(w, u, x);
    } else {
      var q :| PathIn(w, o, q, n - 1) && Edge(w, q, x);
      PathStays(w, o, q, n - 1, u);
      var p :| Candidate(w, Range(w, q), p) && Target(w, p) == x;
      ReachStep(w, u, q, p);
    }
  }

  /** With a single registered object, unreachable and with an ordinary finalizer, it stays unmarked exactly if it is
      not on a cycle and marking from it does not overflow the mark stack. */
  lemma SingleIff(w: World, cap: nat, m0: set<int>, reg: Registry, over: set<int>, m: set<int>, k: Address, lm: set<int>,
                  len: nat)
    requires Good(w) && Closed(w, m0) && AllNormal(reg) && Objects(w, reg) && reg.Keys == {k} && k !in m0
    requires over <= reg.Keys - m0 && MarkedFrom(w, m, Source(w, m0, reg, reg.Keys, over))
    requires Lone(w, cap, m0, reg, reg.Keys, over, lm, len)
    ensures k !in m <==> !Path(w, k, k) && !Overflows(w, cap, m0, k, Normal)
  {
    assert k in reg;
    assert LoneAt(w, cap, m0, reg, reg.Keys, over, lm, len, k);
    ReadyIff(w, m0, reg, over, m, k);
  }

  /** For every size of the mark stack there is a heap in which an unreachable object that is on no cycle, and the only
      one registered, is withheld, with no more objects ahead of it than the stack holds. */
  lemma ReadyObjectWithheld(cap: nat, r: Rec) returns (w: World, k: Address)
    requires GC_MARK_STACK_DISCARDS <= cap && r.mp == Normal
    ensures Good(w) && Closed(w, {}) && k in w.descr && !Path(w, k, k) && |Ahead(w, {}, k, Normal)| == cap
    ensures forall over, m, len | over <= {k} && MarkedFrom(w, m, Source(w, {}, map[k := r], {k}, over)) &&
              Lone(w, cap, {}, map[k := r], {k}, over, m, len) :: k in m
  {
    var o;
    w, o := BoundIsTight(cap);
    k := o;
    if Path(w, k, k) {
      var n: nat :| PathIn(w, k, k, n);
      PathStays(w, k, k, n, {} + Succ(w, k, Normal));
    }
    var reg: Registry := map[k := r];
    forall over, m, len | over <= {k} && MarkedFrom(w, m, Source(w, {}, reg, {k}, over)) &&
      Lone(w, cap, {}, reg, {k}, over, m, len) ensures k in m
    {
      assert reg.Keys == {k};
      SingleIff(w, cap, {}, reg, over, m, k, m, len);
    }
  }

  // ------------------------------------------------------------------- the first phase of GC_finalize, on values

  /** The registered objects of ks were dealt with: m is what is reachable from them and from the objects of over, whose
      marking overflowed.  The mark stack had cap places at the start, and has len now. */
  ghost predicate Reckoned(w: World, m0: set<int>, cap: nat, reg: Registry, over: set<int>, ks: set<Address>, m: set<int>,
                           len: nat)
  {
    && Good(w) && Objects(w, reg) && m0 <= m <= w.descr.Keys && Closed(w, m) && cap <= len
    && Withheld(reg, m0, over) && Reached(w, m0, reg, ks, over, m) && Crowded(w, cap, m0, reg, over)
    && Lone(w, cap, m0, reg, ks, over, m, len)
  }

  /** over are registered objects not marked at the start. */
  ghost predicate Withheld(reg: Registry, m0: set<int>, over: set<int>) {
    forall k {:trigger WithheldAt(reg, m0, k)} | k in over :: WithheldAt(reg, m0, k)
  }

  ghost predicate WithheldAt(reg: Registry, m0: set<int>, k: int) {
    k in reg && k !in m0
  }

  /** m is what is reachable from the source of ks and over. */
  ghost predicate Reached(w: World, m0: set<int>, reg: Registry, ks: set<Address>, over: set<int>, m: set<int>)
    requires w.align > 0
  {
    forall src {:trigger MarkedFrom(w, m, src)} | src == Source(w, m0, reg, ks, over) :: MarkedFrom(w, m, src)
  }

  lemma WithheldAll(reg: Registry, m0: set<int>, over: set<int>)
    requires Withheld(reg, m0, over) == true
    ensures over <= reg.Keys - m0
  {
    forall k | k in over ensures k in reg && k !in m0 {
      assert WithheldAt(reg, m0, k);
    }
  }

  /** Nothing was dealt with yet. */
  lemma ReckonNothing(w: World, m0: set<int>, cap: nat, reg: Registry)
    requires Good(w) && Objects(w, reg) && Closed(w, m0)
    ensures Reckoned(w, m0, cap, reg, {}, {}, m0, cap) == true
  {
    assert Source(w, m0, reg, {}, {}) == m0;
    ClosedIsReachable(w, m0);
    forall x {:trigger MarkedIff(w, m0, m0, x)} ensures MarkedIff(w, m0, m0, x) {
      assert x in m0 <==> Reachable(w, m0, x);
    }
    assert MarkedFrom(w, m0, m0);
  }

  /** A registered object that is marked adds nothing. */
  lemma ReckonMarked(w: World, m0: set<int>, cap: nat, reg: Registry, over: set<int>, ks: set<Address>, m: set<int>, len: nat,
                     k: Address)
    requires Reckoned(w, m0, cap, reg, over, ks, m, len) == true && k in reg && k in m && k !in ks
    ensures Reckoned(w, m0, cap, reg, over, ks + {k}, m, len) == true
  {
    WithheldAll(reg, m0, over);
    assert MarkedFrom(w, m, Source(w, m0, reg, ks, over));
    SourceMarked(w, m0, reg, ks, over, m, k);
    LoneStep(w, cap, m0, reg, ks, over, m, len, k, over, m, len);
  }

  /** Marking from a registered object that is not. */
  lemma ReckonObject(w: World, m0: set<int>, cap: nat, reg: Registry, over: set<int>, ks: set<Address>, m: set<int>, len: nat,
                     k: Address, overflow: bool, m1: set<int>, len1: nat)
    requires Reckoned(w, m0, cap, reg, over, ks, m, len) == true && k in reg && k !in m && k !in ks
    requires m <= m1 <= w.descr.Keys && Closed(w, m1) == true && len <= len1
    requires MarkedFrom(w, m1, m + if overflow then {k as int} else Succ(w, k, reg[k].mp)) == true
    requires overflow <==> Overflows(w, len, m, k, reg[k].mp)
    ensures Reckoned(w, m0, cap, reg, if overflow then over + {k} else over, ks + {k}, m1, len1) == true
  {
    var over1 := if overflow then over + {k} else over;
    WithheldAll(reg, m0, over);
    assert MarkedFrom(w, m, Source(w, m0, reg, ks, over));
    SourceStep(w, m0, reg, ks, over, m, k, overflow, m1);
    if overflow {
      CrowdedStep(w, cap, m0, reg, over, m, len, k);
    }
    LoneStep(w, cap, m0, reg, ks, over, m, len, k, over1, m1, len1);
  }
}
