/**
 The marker (mark.c): a state machine over a bounded mark stack.  When the stack overflows entries are thrown away,
 and the heap is scanned again for marked objects.
 */
module Marker {
  import opened Sizes
  import opened MarkGraph
  import opened MarkSteps


  datatype State = MsNone | MsPushRescuers | MsPushUncollectable | MsRootsPushed | MsPartiallyInvalid | MsInvalid

  /** What marking keeps from m, s to m1, s1, unless the stack overflows: then the state says that it did, and
      something new was marked. */
  ghost predicate Step(w: World, m: set<int>, s: seq<Entry>, st: State, m1: set<int>, s1: seq<Entry>, st1: State)
    requires w.align > 0
  {
    && m <= m1
    && (st1 == st || st1 == MsInvalid)
    && (m1 == m ==> st1 == st)
    && (st1 != MsInvalid ==> Keeps(w, m, s, m1, s1) == true)
  }

  lemma StepTrans(w: World, m: set<int>, s: seq<Entry>, st: State, m1: set<int>, s1: seq<Entry>, st1: State,
                  m2: set<int>, s2: seq<Entry>, st2: State)
    requires w.align > 0 && Step(w, m, s, st, m1, s1, st1) == true && Step(w, m1, s1, st1, m2, s2, st2) == true
    ensures Step(w, m, s, st, m2, s2, st2) == true
  {
    if st2 != MsInvalid {
      KeepsTrans(w, m, s, m1, s1, m2, s2);
    }
  }

  lemma StepRefl(w: World, m: set<int>, s: seq<Entry>, st: State)
    requires w.align > 0
    ensures Step(w, m, s, st, m, s, st) == true
  {
    KeepsRefl(w, m, s);
  }

  /** The same of the functions of MarkSteps. */
  lemma SimToStep(w: World, s: Sim, s1: Sim, st: State)
    requires w.align > 0 && SimStep(w, s, s1) == true && (st == MsInvalid <==> s.over)
    ensures Step(w, s.marked, s.stk, st, s1.marked, s1.stk, if s1.over then MsInvalid else st) == true
  {
  }

  /** The words of the aligned range are the aligned words of the range. */
  lemma AlignIff(a: int, bottom: int, limit: int, p: int)
    requires a == 4 || a == 8
    ensures var b, t := bottom + (a - bottom % a) % a, limit - limit % a;
      && (t - b) % a == 0
      && (b <= p && p + WORD_BYTES <= t && (p - b) % a == 0 <==> bottom <= p && p + WORD_BYTES <= limit && p % a == 0)
  {
    if a == 4 {
      AlignIff4(bottom, limit, p);
    } else {
      AlignIff8(bottom, limit, p);
    }
  }

  lemma AlignIff4(bottom: int, limit: int, p: int)
    ensures var b, t := bottom + (4 - bottom % 4) % 4, limit - limit % 4;
      && (t - b) % 4 == 0
      && (b <= p && p + WORD_BYTES <= t && (p - b) % 4 == 0 <==> bottom <= p && p + WORD_BYTES <= limit && p % 4 == 0)
  {
    var b, t := bottom + (4 - bottom % 4) % 4, limit - limit % 4;
    RoundUp4(bottom);
    RoundDown4(limit);
    if p % 4 == 0 || (p - b) % 4 == 0 {
      Multiples4(b, p);
      Multiples4(t, p + WORD_BYTES);
    }
    Multiples4(b, t);
  }

  lemma RoundUp4(x: int)
    ensures var b := x + (4 - x % 4) % 4; b % 4 == 0 && x <= b < x + 4
  {
  }

  lemma RoundDown4(x: int)
    ensures var t := x - x % 4; t % 4 == 0 && x - 4 < t <= x
  {
  }

  /** Differences of multiples, and what lies between neighbours. */
  lemma Multiples4(b: int, p: int)
    requires b % 4 == 0
    ensures (p - b) % 4 == 0 <==> p % 4 == 0
    ensures p % 4 == 0 ==> (b - 4 < p ==> b <= p) && (p < b + 4 ==> p <= b)
  {
  }

  lemma AlignIff8(bottom: int, limit: int, p: int)
    ensures var b, t := bottom + (8 - bottom % 8) % 8, limit - limit % 8;
      && (t - b) % 8 == 0
      && (b <= p && p + WORD_BYTES <= t && (p - b) % 8 == 0 <==> bottom <= p && p + WORD_BYTES <= limit && p % 8 == 0)
  {
    var b, t := bottom + (8 - bottom % 8) % 8, limit - limit % 8;
    RoundUp8(bottom);
    RoundDown8(limit);
    if p % 8 == 0 || (p - b) % 8 == 0 {
      Multiples8(b, p);
      Multiples8(t, p + WORD_BYTES);
    }
    Multiples8(b, t);
  }

  lemma RoundUp8(x: int)
    ensures var b := x + (8 - x % 8) % 8; b % 8 == 0 && x <= b < x + 8
  {
  }

  lemma RoundDown8(x: int)
    ensures var t := x - x % 8; t % 8 == 0 && x - 8 < t <= x
  {
  }

  lemma Multiples8(b: int, p: int)
    requires b % 8 == 0
    ensures (p - b) % 8 == 0 <==> p % 8 == 0
    ensures p % 8 == 0 ==> (b - 8 < p ==> b <= p) && (p < b + 8 ==> p <= b)
  {
  }

  /** The contents of the marked objects among objs are resolved. */
  ghost predicate ObjsDone(w: World, m: set<int>, s: seq<Entry>, objs: seq<int>)
    requires w.align > 0
  {
    forall o {:trigger o in m} | o in objs && o in m && o in w.descr :: AllResolved(w, m, s, Range(w, o))
  }

  lemma KeepsDone(w: World, m: set<int>, s: seq<Entry>, s1: seq<Entry>, objs: seq<int>)
    requires w.align > 0 && Keeps(w, m, s, m, s1) == true && ObjsDone(w, m, s, objs) == true
    ensures ObjsDone(w, m, s1, objs) == true
  {
    forall o {:trigger o in m} | o in objs && o in m && o in w.descr ensures AllResolved(w, m, s1, Range(w, o)) {
      KeepsResolved(w, m, s, m, s1, Range(w, o));
    }
  }

  class Marker {
    const w: World
    /** GC_mark_stack, with the index of GC_mark_stack_top. */
    var stack: array<Entry>
    var top: int
    var state: State
    var scanPtr: int
    var objectsAreMarked: bool
    var tooSmall: bool
    var marked: set<int>

    ghost predicate Valid()
      reads this, stack
    {
      && Good(w)
      && stack.Length >= INITIAL_MARK_STACK_SIZE
      && -1 <= top < stack.Length
      && marked <= w.descr.Keys
      && forall k | 0 <= k <= top :: GoodEntry(w, stack[k])
    }

    ghost function Stk(): seq<Entry>
      requires -1 <= top < stack.Length
      reads this, stack
    {
      stack[..top + 1]
    }

    /** The state as the functions of MarkSteps see it. */
    ghost function Now(): Sim
      requires -1 <= top < stack.Length
      reads this, stack
    {
      Sim(marked, Stk(), state == MsInvalid)
    }

    /** Now is Valid for MarkSteps as well. */
    lemma NowOk()
      requires Valid()
      ensures Ok(w, stack.Length, Now()) == true
    {
    }

    /** From s, in state st, the marker came to s1. */
    ghost predicate Came(s1: Sim, st: State)
      reads this, stack
    {
      Valid() && Now() == s1 && state == if s1.over then MsInvalid else st
    }

    /** PUSH_OBJ. */
    method PushObj(o: int, descr: int)
      requires Valid() && descr >= 0 && descr % w.align == 0
      modifies this`top, this`state, this`tooSmall, stack
      ensures Came(old(Push(stack.Length, Now(), Entry(o, descr))), old(state)) == true
    {
      if descr != 0 {
        ghost var s := Stk();
        top := top + 1;
        if top >= stack.Length {
          state := MsInvalid;
          tooSmall := true;
          top := top - GC_MARK_STACK_DISCARDS;
        }
        stack[top] := Entry(o, descr);
        assert Stk() == s[..top] + [Entry(o, descr)];
        assert s[..|s|] == s;
      }
    }

    /** PUSH_CONTENTS: if x points to an unmarked object, mark it and push it. */
    method PushContents(x: int)
      requires Valid()
      modifies this`top, this`state, this`tooSmall, this`marked, stack
      ensures Came(old(Visit(w, stack.Length, Now(), x)), old(state)) == true
    {
      if x in w.objOf && w.objOf[x] !in marked {
        var o := w.objOf[x];
        marked := marked + {o};
        PushObj(o, w.descr[o]);
      }
    }

    /** The scan of a range from its upper end for a first plausible pointer, to be dealt with last.  The source
        has two copies of the loop body for the sake of prefetching. */
    method FindDeferred(cur: int, limit0: int) returns (found: bool, deferred: int, limit: int)
      requires Valid() && cur <= limit0 && (limit0 - cur) % w.align == 0
      ensures (limit - cur) % w.align == 0 && cur - w.align <= limit <= limit0 - w.align
      ensures found ==> deferred == WordAt(w, limit + w.align)
      ensures NothingAbove(cur, if found then limit + w.align else cur - 1, limit0) == true
    {
      limit := limit0;
      while true
        invariant cur <= limit <= limit0 && (limit - cur) % w.align == 0
        invariant NothingAbove(cur, limit, limit0) == true
        decreases limit - cur
      {
        deferred := WordAt(w, limit);
        StepDown(w.align, cur, limit);
        limit := limit - w.align;
        if w.least <= deferred < w.greatest {
          return true, deferred, limit;
        }
        NothingHere(cur, limit + w.align, limit0);
        if cur > limit {
          return false, deferred, limit;
        }
      }
    }

    /** The words above p up to limit are no pointers to objects. */
    ghost predicate NothingAbove(cur: int, p: int, limit: int)
      requires w.align > 0
    {
      forall q {:trigger Target(w, q)} | p < q <= limit && (q - cur) % w.align == 0 :: Target(w, q) == NONE
    }

    lemma NothingHere(cur: int, p: int, limit: int)
      requires Good(w) && NothingAbove(cur, p, limit) && cur <= p && (p - cur) % w.align == 0
      requires !(w.least <= WordAt(w, p) < w.greatest)
      ensures NothingAbove(cur, p - w.align, limit) == true && (p == cur ==> NothingAbove(cur, cur - 1, limit) == true)
    {
      StepDown(w.align, cur, p);
      forall q {:trigger Target(w, q)} | p - w.align < q <= limit && (q - cur) % w.align == 0 ensures Target(w, q) == NONE {
        assert q >= p;
      }
    }

    /** The scan of a range in GC_mark_from: the words from cur to limit0. */
    method ScanRange(cur: int, limit0: int)
      requires Valid() && cur <= limit0 && (limit0 - cur) % w.align == 0
      modifies this`top, this`state, this`tooSmall, this`marked, stack
      ensures Came(old(Scan(w, stack.Length, Now(), cur, limit0)), old(state)) == true
    {
      ghost var s := Now();
      var found, deferred, limit := FindDeferred(cur, limit0);
      NowOk();
      if !found {
        ScanNothing(w, stack.Length, s, cur, limit0, cur);
        return;
      }
      DeferredLast(s, cur, limit, limit0);
      ScanLoop(cur, limit);
      PushContents(deferred);
    }

    /** Putting off the last word that may be a pointer makes no difference. */
    lemma DeferredLast(s: Sim, cur: int, limit: int, limit0: int)
      requires stack.Length >= INITIAL_MARK_STACK_SIZE && Ok(w, stack.Length, s) == true
      requires cur - w.align <= limit <= limit0 - w.align && (limit - cur) % w.align == 0
      requires NothingAbove(cur, limit + w.align, limit0)
      ensures Scan(w, stack.Length, s, cur, limit0)
           == Visit(w, stack.Length, Scan(w, stack.Length, s, cur, limit), WordAt(w, limit + w.align))
    {
      var s1 := Scan(w, stack.Length, s, cur, limit);
      ScanSplit(w, stack.Length, s, cur, limit, limit0);
      ScanStep(w, stack.Length, s, cur, limit);
      VisitStep(w, stack.Length, s1, WordAt(w, limit + w.align));
      var from := limit + 2 * w.align;
      forall p {:trigger Target(w, p)} | from <= p <= limit0 && (p - from) % w.align == 0 ensures Target(w, p) == NONE {
        SameMultiples(w.align, limit - cur, p - from);
        assert limit - cur + (p - from) + 2 * w.align == p - cur;
      }
      ScanNothing(w, stack.Length, Visit(w, stack.Length, s1, WordAt(w, limit + w.align)), from, limit0, from);
    }

    /** The main scanning loop. */
    method ScanLoop(cur: int, limit: int)
      requires Valid()
      modifies this`top, this`state, this`tooSmall, this`marked, stack
      ensures Came(old(Scan(w, stack.Length, Now(), cur, limit)), old(state)) == true
    {
      var p := cur;
      ghost var s, st := Now(), state;
      while p <= limit
        invariant Valid() && (state == st || state == MsInvalid)
        invariant Scan(w, stack.Length, s, cur, limit) == Scan(w, stack.Length, Now(), p, limit)
        decreases limit - p
      {
        ScanWord(p);
        p := p + w.align;
      }
    }

    /** Look at the word at address p. */
    method ScanWord(p: int)
      requires Valid()
      modifies this`top, this`state, this`tooSmall, this`marked, stack
      ensures Came(old(Visit(w, stack.Length, Now(), WordAt(w, p))), old(state)) == true
    {
      var x := WordAt(w, p);
      if w.least <= x < w.greatest {
        PushContents(x);
      }
    }

    /** Pop the top of the stack, or a first part of it: the words from cur up to limit are to be scanned. */
    method PopRange() returns (cur: int, limit: int)
      requires Valid() && top >= 0
      modifies this`top, stack
      ensures Came(old(Popped(Now())), old(state)) == true
      ensures cur == old(stack[top]).start && limit == LastWord(w, old(stack[top])) + WORD_BYTES
    {
      ghost var s := Now();
      NowOk();
      PoppedOk(w, stack.Length, s);
      var e := stack[top];
      assert e == s.stk[|s.stk| - 1];
      cur := e.start;
      if e.len >= SPLIT_RANGE_WORDS * WORD_BYTES {
        stack[top] := Entry(cur + CHUNK, e.len - CHUNK);
        limit := cur + CHUNK + (WORD_BYTES - w.align);
      } else {
        top := top - 1;
        limit := cur + e.len;
      }
      assert Stk() == Popped(s).stk;
      ValidAgain();
    }

    lemma ValidAgain()
      requires stack.Length >= INITIAL_MARK_STACK_SIZE && -1 <= top < stack.Length && Ok(w, stack.Length, Now()) == true
      ensures Valid()
    {
      forall k | 0 <= k <= top ensures GoodEntry(w, stack[k]) {
        assert Stk()[k] == stack[k];
      }
    }

    lemma RangeAligned(e: Entry)
      requires Good(w) && GoodEntry(w, e)
      ensures (LastWord(w, e) - e.start) % w.align == 0
    {
      ChunkAligned(w.align, e.len);
      assert e.start + CHUNK - w.align - e.start == CHUNK - w.align;
      assert e.start + e.len - WORD_BYTES - e.start == e.len - WORD_BYTES;
    }

    /** One round of the loop of GC_mark_from: deal with the top of the stack, or with a first part of it. */
    method MarkTop() returns (spent: int)
      requires Valid() && top >= 0
      modifies this`top, this`state, this`tooSmall, this`marked, stack
      ensures Came(old(Top(w, stack.Length, Now())), old(state)) == true
    {
      RangeAligned(stack[top]);
      var cur, limit := PopRange();
      if limit - cur < WORD_BYTES {
        return 0;
      }
      spent := limit - cur;
      ScanRange(cur, limit - WORD_BYTES);
    }

    /** What a round of the loop keeps. */
    lemma RoundStep(s: Sim, u: set<int>)
      requires stack.Length >= INITIAL_MARK_STACK_SIZE && Ok(w, stack.Length, s) == true && s.stk != []
      requires Precise(w, u, s.marked, s.stk) == true
      ensures var s1 := Top(w, stack.Length, s);
        && Ok(w, stack.Length, s1) == true && SimStep(w, s, s1) == true && Precise(w, u, s1.marked, s1.stk) == true
        && (s1.marked == s.marked ==> Work(s1.stk) < Work(s.stk))
        && Drain(w, stack.Length, s) == Drain(w, stack.Length, s1)
    {
      TopStep(w, stack.Length, s);
      TopPrecise(w, u, stack.Length, s);
    }

    /** The state of marking from the stack, which began with s in state st. */
    ghost predicate Marking(s: Sim, st: State, u: set<int>)
      reads this, stack
    {
      && Valid() && stack.Length >= INITIAL_MARK_STACK_SIZE && Ok(w, stack.Length, s) == true && Ok(w, stack.Length, Now()) == true
      && state == (if Now().over then MsInvalid else st) && SimStep(w, s, Now()) == true
      && Precise(w, u, marked, Stk()) == true && Drain(w, stack.Length, Now()) == Drain(w, stack.Length, s)
    }

    method MarkRound(ghost s: Sim, ghost st: State, ghost u: set<int>) returns (spent: int)
      requires Marking(s, st, u) == true && top >= 0
      modifies this`top, this`state, this`tooSmall, this`marked, stack
      ensures Marking(s, st, u) == true && old(marked) <= marked
      ensures marked == old(marked) ==> Work(Stk()) < Work(old(Stk()))
      ensures w.descr.Keys - marked < w.descr.Keys - old(marked) || marked == old(marked)
    {
      ghost var s1 := Now();
      RoundStep(s1, u);
      SimTrans(w, s, s1, Top(w, stack.Length, s1));
      spent := MarkTop();
      LessUnmarked(s1.marked, marked);
    }

    lemma LessUnmarked(m: set<int>, m1: set<int>)
      requires m <= m1 <= w.descr.Keys
      ensures w.descr.Keys - m1 < w.descr.Keys - m || m1 == m
    {
      if x :| x in m1 && x !in m {
        assert x in w.descr.Keys - m && x !in w.descr.Keys - m1;
      }
    }

    /** GC_mark_from, on the main mark stack. */
    method MarkFrom(ghost u: set<int>)
      requires Valid() && Precise(w, u, marked, Stk()) == true
      modifies this`top, this`state, this`tooSmall, this`marked, this`objectsAreMarked, stack
      ensures Marking(old(Now()), old(state), u) == true && objectsAreMarked
      ensures Step(w, old(marked), old(Stk()), old(state), marked, Stk(), state) == true
      ensures old(top) >= 0 && marked == old(marked) ==> Work(Stk()) < Work(old(Stk()))
    {
      var credit := HBLKSIZE;
      objectsAreMarked := true;
      ghost var rounds: nat := 0;
      ghost var s, st := Now(), state;
      NowOk();
      SimRefl(w, s);
      while top >= 0 && credit >= 0
        invariant Marking(s, st, u) == true && s.marked <= marked && objectsAreMarked
        invariant rounds == 0 ==> top == old(top) && credit == HBLKSIZE && Stk() == s.stk
        invariant rounds > 0 && marked == s.marked ==> Work(Stk()) < Work(s.stk)
        decreases w.descr.Keys - marked, Work(Stk())
      {
        var spent := MarkRound(s, st, u);
        credit := credit - spent;
        rounds := rounds + 1;
      }
      SimToStep(w, s, Now(), st);
    }

    // ------------------------------------------------------------------------ pushing marked objects and roots

    /** GC_push_marked: push the marked objects of a block. */
    method PushMarked(b: Block, ghost u: set<int>)
      requires Valid() && b in w.blocks && Precise(w, u, marked, Stk()) == true
      modifies this`top, this`state, this`tooSmall, this`objectsAreMarked, stack
      ensures Valid() && Precise(w, u, marked, Stk()) == true
      ensures old(objectsAreMarked) ==> objectsAreMarked
      ensures state == old(state) || (state == MsInvalid && objectsAreMarked)
      ensures old(top) + MAX_OBJS < stack.Length ==> state == old(state)
      ensures state != MsInvalid ==> Keeps(w, marked, old(Stk()), marked, Stk()) == true
      ensures state != MsInvalid ==> ObjsDone(w, marked, Stk(), b.objs) == true
    {
      BlockFacts(b);
      KeepsRefl(w, marked, Stk());
      if b.descr == 0 {
        NoContents(b);
        return;
      }
      var i := 0;
      while i < |b.objs| && b.objs[i] !in marked
        invariant 0 <= i <= |b.objs|
        invariant forall k | 0 <= k < i :: b.objs[k] !in marked
      {
        i := i + 1;
      }
      if i == |b.objs| {
        assert forall o | o in b.objs :: o !in marked;
        return;
      }
      objectsAreMarked := true;
      i := 0;
      ghost var s0, st0, top0 := Stk(), state, top;
      while i < |b.objs|
        invariant 0 <= i <= |b.objs| && objectsAreMarked
        invariant Pushing(s0, st0, top0, b.objs[..i], u) == true
      {
        assert b.objs[..i + 1] == b.objs[..i] + [b.objs[i]];
        PushIfMarked(s0, st0, top0, b.objs[..i], b.objs[i], u);
        i := i + 1;
      }
      assert b.objs[..i] == b.objs;
    }

    /** The objects of objs were looked at since the stack was s0. */
    ghost predicate Pushing(s0: seq<Entry>, st0: State, top0: int, objs: seq<int>, u: set<int>)
      reads this, stack
    {
      && Valid() && Precise(w, u, marked, Stk()) && (state == st0 || state == MsInvalid)
      && (top0 + MAX_OBJS < stack.Length && |objs| <= MAX_OBJS ==> state == st0 && top <= top0 + |objs|)
      && (state != MsInvalid ==> Keeps(w, marked, s0, marked, Stk()) && ObjsDone(w, marked, Stk(), objs))
    }

    /** The body of the loop, for object o. */
    method PushIfMarked(ghost s0: seq<Entry>, ghost st0: State, ghost top0: int, ghost objs: seq<int>, o: int, ghost u: set<int>)
      requires Pushing(s0, st0, top0, objs, u) == true && o in w.descr && w.descr[o] > 0
      modifies this`top, this`state, this`tooSmall, stack
      ensures Pushing(s0, st0, top0, objs + [o], u) == true
    {
      if o in marked {
        ghost var s := Stk();
        PushOne(o, u);
        if state != MsInvalid {
          KeepsTrans(w, marked, s0, marked, s, marked, Stk());
          KeepsDone(w, marked, s, Stk(), objs);
        }
      }
    }

    /** Push the marked object o. */
    method PushOne(o: int, ghost u: set<int>)
      requires Valid() && o in w.descr && w.descr[o] > 0 && o in marked && Precise(w, u, marked, Stk()) == true
      modifies this`top, this`state, this`tooSmall, stack
      ensures Valid() && Precise(w, u, marked, Stk()) == true
      ensures state == old(state) || state == MsInvalid
      ensures old(top) + 1 < stack.Length ==> state == old(state) && top == old(top) + 1
      ensures state != MsInvalid ==> Keeps(w, marked, old(Stk()), marked, Stk()) == true
      ensures state != MsInvalid ==> AllResolved(w, marked, Stk(), Range(w, o)) == true
    {
      ghost var s := Now();
      NowOk();
      PushPrecise(w, u, stack.Length, s, o);
      PushKeeps(w, marked, s.stk, Range(w, o));
      PushObj(o, w.descr[o]);
      assert marked + {o} == marked;
    }

    lemma BlockFacts(b: Block)
      requires Good(w) && b in w.blocks
      ensures |b.objs| <= MAX_OBJS && forall o | o in b.objs :: o in w.descr && w.descr[o] == b.descr
    {
    }

    lemma NoContents(b: Block)
      requires Valid() && b in w.blocks && b.descr == 0
      ensures ObjsDone(w, marked, Stk(), b.objs) == true
    {
    }

    /** The first block in use at or above block number h: its place in w.blocks, or the number of blocks. */
    method NextUsedBlock(h: int) returns (i: nat)
      requires Good(w)
      ensures i <= |w.blocks| && (forall j | 0 <= j < i :: w.blocks[j].at < h)
      ensures forall j | i <= j < |w.blocks| :: w.blocks[j].at >= h
    {
      i := 0;
      while i < |w.blocks| && w.blocks[i].at < h
        invariant i <= |w.blocks| && forall j | 0 <= j < i :: w.blocks[j].at < h
      {
        i := i + 1;
      }
    }

    /** GC_push_next_marked: push the marked objects of the first block from h on; h' is the end of that block. */
    method PushNextMarked(h: int, ghost u: set<int>) returns (h': int)
      requires Valid() && h >= 0 && Precise(w, u, marked, Stk()) == true
      modifies this`top, this`state, this`tooSmall, this`objectsAreMarked, stack
      ensures Valid() && Precise(w, u, marked, Stk()) == true
      ensures old(objectsAreMarked) ==> objectsAreMarked
      ensures state == old(state) || (state == MsInvalid && objectsAreMarked)
      ensures old(top) + MAX_OBJS < stack.Length ==> state == old(state)
      ensures state != MsInvalid ==> Keeps(w, marked, old(Stk()), marked, Stk()) == true
      ensures h' == 0 ==> BlocksLeft(h) == 0 && Stk() == old(Stk()) && state == old(state)
      ensures h' != 0 ==> h' > 0 && BlocksLeft(h') < BlocksLeft(h)
      ensures state != MsInvalid && old(ScannedBelow(w, marked, Stk(), h)) ==>
        if h' == 0 then AllScanned(w, marked, Stk()) == true else ScannedBelow(w, marked, Stk(), h') == true
    {
      var i := NextUsedBlock(h);
      if i == |w.blocks| {
        KeepsRefl(w, marked, Stk());
        NoneLeft(h);
        if ScannedBelow(w, marked, Stk(), h) {
          ScannedToEnd(marked, Stk(), h);
        }
        return 0;
      }
      ghost var s := Stk();
      var b := w.blocks[i];
      PushMarked(b, u);
      h' := b.at + b.blocks;
      FewerLeft(h, i);
      if state != MsInvalid && ScannedBelow(w, marked, s, h) {
        KeepsScanned(w, marked, s, marked, Stk(), h);
        ScannedOneMore(marked, Stk(), h, i);
      }
    }

    /** GC_push_next_marked_uncollectable: the same for blocks of uncollectable objects. */
    method PushNextMarkedUncollectable(h0: int, ghost u: set<int>) returns (h': int)
      requires Valid() && h0 >= 0 && Precise(w, u, marked, Stk()) == true
      modifies this`top, this`state, this`tooSmall, this`objectsAreMarked, stack
      ensures Valid() && Precise(w, u, marked, Stk()) == true
      ensures old(objectsAreMarked) ==> objectsAreMarked
      ensures state == old(state) || (state == MsInvalid && objectsAreMarked)
      ensures old(top) + MAX_OBJS < stack.Length ==> state == old(state)
      ensures state != MsInvalid ==> Keeps(w, marked, old(Stk()), marked, Stk()) == true
      ensures h' == 0 ==> Stk() == old(Stk()) && state == old(state)
      ensures h' != 0 ==> h' > 0 && BlocksLeft(h') < BlocksLeft(h0)
      ensures state != MsInvalid && old(UncScannedBelow(w, marked, Stk(), h0)) ==>
        if h' == 0 then AllScanned(w, marked, Stk()) == true else UncScannedBelow(w, marked, Stk(), h') == true
    {
      var i := NextUsedBlock(h0);
      while i < |w.blocks| && w.blocks[i].kind != UNCOLLECTABLE
        invariant i <= |w.blocks| && unchanged(this) && unchanged(stack)
        invariant forall j | i <= j < |w.blocks| :: w.blocks[j].at >= h0
        invariant forall j | 0 <= j < i :: w.blocks[j].at < h0 || w.blocks[j].kind != UNCOLLECTABLE
      {
        i := i + 1;
      }
      ghost var s := Stk();
      if i == |w.blocks| {
        KeepsRefl(w, marked, s);
        if UncScannedBelow(w, marked, s, h0) {
          UncScannedToEnd(marked, s, h0);
        }
        return 0;
      }
      var b := w.blocks[i];
      PushMarked(b, u);
      h' := b.at + b.blocks;
      FewerLeft(h0, i);
      if state != MsInvalid && UncScannedBelow(w, marked, s, h0) {
        KeepsScanned(w, marked, s, marked, Stk(), h0);
        UncScannedOneMore(marked, Stk(), h0, i);
      }
    }

    /** The number of blocks from block number h on. */
    ghost function BlocksLeft(h: int): nat {
      |set i | 0 <= i < |w.blocks| && w.blocks[i].at >= h|
    }

    lemma NoneLeft(h: int)
      requires forall j | 0 <= j < |w.blocks| :: w.blocks[j].at < h
      ensures BlocksLeft(h) == 0
    {
      assert (set i | 0 <= i < |w.blocks| && w.blocks[i].at >= h) == {};
    }

    lemma FewerLeft(h: int, i: int)
      requires Good(w) && 0 <= i < |w.blocks| && w.blocks[i].at >= h
      ensures w.blocks[i].at + w.blocks[i].blocks > 0
      ensures BlocksLeft(w.blocks[i].at + w.blocks[i].blocks) < BlocksLeft(h)
    {
      var h1 := w.blocks[i].at + w.blocks[i].blocks;
      var a := set k | 0 <= k < |w.blocks| && w.blocks[k].at >= h1;
      var b := set k | 0 <= k < |w.blocks| && w.blocks[k].at >= h;
      assert GoodBlock(w.blocks[i]);
      assert a <= b && i in b && i !in a;
      Smaller(a, b);
    }

    lemma Smaller(a: set<int>, b: set<int>)
      requires a < b
      ensures |a| < |b|
    {
      assert b == a + (b - a);
    }

    lemma ScannedToEnd(m: set<int>, s: seq<Entry>, h: int)
      requires Good(w) && ScannedBelow(w, m, s, h) && forall j | 0 <= j < |w.blocks| :: w.blocks[j].at < h
      ensures AllScanned(w, m, s) == true
    {
      forall o {:trigger o in m} | o in m && o in w.descr ensures AllResolved(w, m, s, Range(w, o)) {
        assert InSome(w, o);
      }
    }

    lemma UncScannedToEnd(m: set<int>, s: seq<Entry>, h: int)
      requires Good(w) && UncScannedBelow(w, m, s, h)
      requires forall j | 0 <= j < |w.blocks| :: w.blocks[j].at < h || w.blocks[j].kind != UNCOLLECTABLE
      ensures AllScanned(w, m, s) == true
    {
      forall o {:trigger o in m} | o in m && o in w.descr ensures AllResolved(w, m, s, Range(w, o)) {
        assert InSome(w, o);
      }
    }

    lemma ScannedOneMore(m: set<int>, s: seq<Entry>, h: int, i: int)
      requires Good(w) && ScannedBelow(w, m, s, h) && 0 <= i < |w.blocks| && w.blocks[i].at >= h
      requires (forall j | 0 <= j < i :: w.blocks[j].at < h) && ObjsDone(w, m, s, w.blocks[i].objs)
      ensures ScannedBelow(w, m, s, w.blocks[i].at + w.blocks[i].blocks) == true
    {
    }

    lemma UncScannedOneMore(m: set<int>, s: seq<Entry>, h: int, i: int)
      requires Good(w) && UncScannedBelow(w, m, s, h) && 0 <= i < |w.blocks| && w.blocks[i].at >= h
      requires forall j | 0 <= j < i :: w.blocks[j].at < h || w.blocks[j].kind != UNCOLLECTABLE
      requires ObjsDone(w, m, s, w.blocks[i].objs)
      ensures UncScannedBelow(w, m, s, w.blocks[i].at + w.blocks[i].blocks) == true
    {
    }

    /** GC_push_all: push the aligned words between bottom and limit.  There must be room. */
    method PushAll(bottom: int, limit: int, ghost u: set<int>)
      requires Valid() && top + 1 < stack.Length && Precise(w, u, marked, Stk()) == true
      requires forall p {:trigger Target(w, p)} | bottom <= p && p + WORD_BYTES <= limit && p % w.align == 0 ::
        Target(w, p) == NONE || Reachable(w, u, Target(w, p))
      modifies this`top, stack
      ensures Valid() && Precise(w, u, marked, Stk()) == true && top <= old(top) + 1
      ensures Keeps(w, marked, old(Stk()), marked, Stk()) == true
      ensures forall p {:trigger Resolved(w, marked, Stk(), p)} |
        bottom <= p && p + WORD_BYTES <= limit && p % w.align == 0 :: Resolved(w, marked, Stk(), p)
    {
      var b := bottom + (w.align - bottom % w.align) % w.align;
      var t := limit - limit % w.align;
      KeepsRefl(w, marked, Stk());
      if b >= t {
        return;
      }
      ghost var s, e := Stk(), Entry(b, t - b);
      PushKeeps(w, marked, s, e);
      top := top + 1;
      stack[top] := Entry(b, t - b);
      assert Stk() == s + [e];
      AlignedPrecise(u, s, bottom, limit, e);
    }

    lemma AlignedPrecise(u: set<int>, s: seq<Entry>, bottom: int, limit: int, e: Entry)
      requires Good(w) && Precise(w, u, marked, s) == true
      requires e == Entry(bottom + (w.align - bottom % w.align) % w.align,
                          (limit - limit % w.align) - (bottom + (w.align - bottom % w.align) % w.align))
      requires forall p {:trigger Target(w, p)} | bottom <= p && p + WORD_BYTES <= limit && p % w.align == 0 ::
        Target(w, p) == NONE || Reachable(w, u, Target(w, p))
      ensures Precise(w, u, marked, s + [e]) == true
      ensures e.len % w.align == 0
      ensures forall p {:trigger Candidate(w, e, p)} |
        bottom <= p && p + WORD_BYTES <= limit && p % w.align == 0 :: Candidate(w, e, p)
    {
      forall p {:trigger Candidate(w, e, p)}
        ensures Candidate(w, e, p) <==> bottom <= p && p + WORD_BYTES <= limit && p % w.align == 0
      {
        AlignIff(w.align, bottom, limit, p);
      }
      AlignIff(w.align, bottom, limit, 0);
      assert PreciseEntry(w, u, e);
    }

    /** The words of the first n root ranges are resolved. */
    ghost predicate RangesDone(m: set<int>, s: seq<Entry>, n: int)
      requires w.align > 0 && 0 <= n <= |w.ranges|
    {
      forall p, i {:trigger Resolved(w, m, s, p), w.ranges[i]} | 0 <= i < n && w.ranges[i].0 <= p &&
        p + WORD_BYTES <= w.ranges[i].1 && p % w.align == 0 :: Resolved(w, m, s, p)
    }

    /** The objects of the first n single root words are marked. */
    ghost predicate OnesDone(m: set<int>, n: int)
      requires 0 <= n <= |w.ones|
    {
      forall i {:trigger w.ones[i]} | 0 <= i < n :: ObjOf(w, w.ones[i]) == NONE || ObjOf(w, w.ones[i]) in m
    }

    lemma RootsAreDone(m: set<int>, s: seq<Entry>)
      requires Good(w) && RangesDone(m, s, |w.ranges|) && OnesDone(m, |w.ones|)
      ensures RootsDone(w, m, s) == true
    {
      forall p {:trigger RootLoc(w, p)} | RootLoc(w, p) ensures Resolved(w, m, s, p) {
        var i :| 0 <= i < |w.ranges| && w.ranges[i].0 <= p && p + WORD_BYTES <= w.ranges[i].1;
      }
    }

    lemma RootRangePrecise(u: set<int>, i: int)
      requires Good(w) && 0 <= i < |w.ranges|
      ensures forall p {:trigger Target(w, p)} |
        w.ranges[i].0 <= p && p + WORD_BYTES <= w.ranges[i].1 && p % w.align == 0 ::
        Target(w, p) == NONE || Reachable(w, u, Target(w, p))
    {
      forall p {:trigger Target(w, p)} | w.ranges[i].0 <= p && p + WORD_BYTES <= w.ranges[i].1 && p % w.align == 0
        ensures Target(w, p) == NONE || Reachable(w, u, Target(w, p))
      {
        if Target(w, p) != NONE {
          assert RootLoc(w, p);
          ReachRoot(w, u, Target(w, p));
        }
      }
    }

    lemma RootOnePrecise(u: set<int>, i: int)
      requires Good(w) && 0 <= i < |w.ones|
      ensures ObjOf(w, w.ones[i]) == NONE || Reachable(w, u, ObjOf(w, w.ones[i]))
    {
      if ObjOf(w, w.ones[i]) != NONE {
        ReachRoot(w, u, ObjOf(w, w.ones[i]));
      }
    }

    lemma KeepsRanges(m: set<int>, s: seq<Entry>, m1: set<int>, s1: seq<Entry>, n: int)
      requires w.align > 0 && 0 <= n <= |w.ranges| && Keeps(w, m, s, m1, s1) == true && RangesDone(m, s, n) == true
      ensures RangesDone(m1, s1, n) == true
    {
      forall p, i {:trigger Resolved(w, m1, s1, p), w.ranges[i]} | 0 <= i < n && w.ranges[i].0 <= p &&
        p + WORD_BYTES <= w.ranges[i].1 && p % w.align == 0 ensures Resolved(w, m1, s1, p)
      {
        assert Resolved(w, m, s, p);
      }
    }

    /** The root ranges, pushed as a whole. */
    method PushRanges(ghost u: set<int>)
      requires Valid() && top + |w.ranges| < stack.Length && Precise(w, u, marked, Stk()) == true
      modifies this`top, stack
      ensures Valid() && Precise(w, u, marked, Stk()) == true
      ensures Keeps(w, marked, old(Stk()), marked, Stk()) == true
      ensures RangesDone(marked, Stk(), |w.ranges|) == true
    {
      var i := 0;
      KeepsRefl(w, marked, Stk());
      while i < |w.ranges|
        invariant 0 <= i <= |w.ranges| && top <= old(top) + i
        invariant Valid() && Precise(w, u, marked, Stk()) == true
        invariant Keeps(w, marked, old(Stk()), marked, Stk()) == true
        invariant RangesDone(marked, Stk(), i) == true
      {
        ghost var s := Stk();
        RootRangePrecise(u, i);
        PushAll(w.ranges[i].0, w.ranges[i].1, u);
        KeepsTrans(w, marked, old(Stk()), marked, s, marked, Stk());
        KeepsRanges(marked, s, marked, Stk(), i);
        i := i + 1;
      }
    }

    /** PUSH_CONTENTS for a root word. */
    method PushRootWord(x: int, ghost u: set<int>)
      requires Valid() && Precise(w, u, marked, Stk()) == true && (ObjOf(w, x) == NONE || Reachable(w, u, ObjOf(w, x)))
      modifies this`top, this`state, this`tooSmall, this`marked, stack
      ensures Valid() && Precise(w, u, marked, Stk()) == true
      ensures Step(w, old(marked), old(Stk()), old(state), marked, Stk(), state) == true
      ensures ObjOf(w, x) == NONE || ObjOf(w, x) in marked
    {
      ghost var s, st := Now(), state;
      NowOk();
      VisitStep(w, stack.Length, s, x);
      VisitPrecise(w, u, stack.Length, s, x);
      SimToStep(w, s, Visit(w, stack.Length, s, x), st);
      PushContents(x);
    }

    /** GC_push_roots: the root ranges are pushed, the objects of single root words are marked and pushed. */
    method PushRoots(ghost u: set<int>)
      requires Valid() && top + |w.ranges| < stack.Length && Precise(w, u, marked, Stk()) == true
      modifies this`top, this`state, this`tooSmall, this`marked, stack
      ensures Valid() && Precise(w, u, marked, Stk()) == true
      ensures Step(w, old(marked), old(Stk()), old(state), marked, Stk(), state) == true
      ensures state != MsInvalid ==> RootsDone(w, marked, Stk()) == true
    {
      PushRanges(u);
      StepRefl(w, marked, Stk(), state);
      var i := 0;
      while i < |w.ones|
        invariant 0 <= i <= |w.ones|
        invariant Valid() && Precise(w, u, marked, Stk()) == true
        invariant Step(w, old(marked), old(Stk()), old(state), marked, Stk(), state) == true
        invariant state != MsInvalid ==> RangesDone(marked, Stk(), |w.ranges|) == true
        invariant OnesDone(marked, i)
      {
        var x := w.ones[i];
        RootOnePrecise(u, i);
        if w.least <= x < w.greatest {
          ghost var m1, s1, st1 := marked, Stk(), state;
          PushRootWord(x, u);
          StepTrans(w, old(marked), old(Stk()), old(state), m1, s1, st1, marked, Stk(), state);
          if state != MsInvalid {
            KeepsRanges(m1, s1, marked, Stk(), |w.ranges|);
          }
        }
        i := i + 1;
      }
      if state != MsInvalid {
        RootsAreDone(marked, Stk());
      }
    }

    // --------------------------------------------------------------------------------------- the state machine

    /** What each state of the marker means; u is the set of objects that were marked at the start. */
    ghost predicate Inv(u: set<int>)
      reads this, stack
    {
      && Valid() && Precise(w, u, marked, Stk()) == true && u <= marked && scanPtr >= 0
      && match state
         case MsNone => top == -1
         case MsPushRescuers => ScannedBelow(w, marked, Stk(), scanPtr) == true
         case MsPushUncollectable => UncScannedBelow(w, marked, Stk(), scanPtr) == true
         case MsRootsPushed => AllScanned(w, marked, Stk()) == true && RootsDone(w, marked, Stk()) == true && objectsAreMarked
         case MsPartiallyInvalid => ScannedBelow(w, marked, Stk(), scanPtr) == true && objectsAreMarked
         case MsInvalid => !objectsAreMarked ==> scanPtr == 0 && UncScannedBelow(w, marked, Stk(), 0) == true
    }

    /** How far the states are from the end of marking, if nothing new is marked. */
    ghost function Rank(): nat
      reads this
    {
      match state
      case MsNone => 0
      case MsRootsPushed => 1
      case MsPartiallyInvalid => 2
      case MsInvalid => if !objectsAreMarked then 6 else if scanPtr == 0 then 3 else 4
      case MsPushRescuers => 5
      case MsPushUncollectable => 5
    }

    ghost function Unmarked(): set<int>
      reads this
    {
      w.descr.Keys - marked
    }

    /** Progress: something new was marked, or the machine came nearer to the end. */
    twostate predicate Progress()
      requires old(Valid()) && Valid()
      reads this, stack
    {
      || (old(marked) < marked)
      || (marked == old(marked) &&
           (|| Rank() < old(Rank())
            || (Rank() == old(Rank()) && BlocksLeft(scanPtr) < BlocksLeft(old(scanPtr)))
            || (Rank() == old(Rank()) && scanPtr == old(scanPtr) && Work(Stk()) < Work(old(Stk())))))
    }

    /** MARK_FROM_MARK_STACK, in any state. */
    method MarkFromStack(ghost u: set<int>)
      requires Inv(u) == true && state != MsNone && (state == MsInvalid ==> objectsAreMarked) && top >= 0
      modifies this`top, this`state, this`tooSmall, this`marked, this`objectsAreMarked, stack
      ensures Inv(u) == true && Progress() && stack == old(stack)
      ensures state == old(state) || state == MsInvalid
      ensures state != MsNone
    {
      ghost var m, s := marked, Stk();
      MarkFrom(u);
      if state != MsInvalid {
        KeepsScanned(w, m, s, marked, Stk(), scanPtr);
      }
    }

    /** The end of a scan of all blocks: push the roots and go on to marking from the stack. */
    method FinishScan(ghost u: set<int>)
      requires Valid() && Precise(w, u, marked, Stk()) == true && u <= marked && scanPtr == 0
      requires state == MsPushRescuers || state == MsPushUncollectable || state == MsPartiallyInvalid
      requires top + |w.ranges| < stack.Length && AllScanned(w, marked, Stk()) == true
      modifies this`top, this`state, this`tooSmall, this`marked, this`objectsAreMarked, stack
      ensures Inv(u) == true && stack == old(stack) && old(marked) <= marked && objectsAreMarked
      ensures state == MsRootsPushed || state == MsInvalid
      ensures marked == old(marked) ==> state == MsRootsPushed
    {
      ghost var m, s := marked, Stk();
      PushRoots(u);
      objectsAreMarked := true;
      if state != MsInvalid {
        KeepsScanned(w, m, s, marked, Stk(), 0);
        state := MsRootsPushed;
      }
    }

    /** One step of the scan for marked uncollectable objects. */
    method ScanUncollectable(ghost u: set<int>)
      requires Inv(u) == true && state == MsPushUncollectable && top < stack.Length / 4
      modifies this`top, this`state, this`tooSmall, this`marked, this`objectsAreMarked, this`scanPtr, stack
      ensures Inv(u) == true && Progress() && stack == old(stack)
      ensures state != MsNone
    {
      scanPtr := PushNextMarkedUncollectable(scanPtr, u);
      if scanPtr == 0 {
        FinishScan(u);
      }
    }

    /** One step of the scan for marked objects that precedes the roots. */
    method ScanMarked(ghost u: set<int>)
      requires Inv(u) == true && (state == MsPushRescuers || state == MsPartiallyInvalid)
      requires top + INITIAL_MARK_STACK_SIZE / 2 < stack.Length
      modifies this`top, this`state, this`tooSmall, this`marked, this`objectsAreMarked, this`scanPtr, stack
      ensures Inv(u) == true && Progress() && stack == old(stack)
      ensures state != MsNone
    {
      scanPtr := PushNextMarked(scanPtr, u);
      if scanPtr == 0 {
        FinishScan(u);
      }
    }

    /** alloc_mark_stack: the new stack is empty.  The allocation may fail; the old space is not recycled here. */
    method AllocMarkStack(n: nat)
      requires Valid() && n >= stack.Length && top == -1
      modifies this`stack, this`top, this`tooSmall
      ensures Valid() && top == -1 && !tooSmall && stack.Length >= old(stack.Length)
      ensures stack == old(stack) || fresh(stack)
    {
      tooSmall := false;
      var ok: bool := *;
      if ok {
        stack := new Entry[n](_ => Entry(0, 0));
      }
      top := -1;
    }

    /** What these cases of GC_mark_some do when the stack is empty. */
    method Rescan(ghost u: set<int>)
      requires Inv(u) == true && (state == MsInvalid || state == MsPartiallyInvalid) && top == -1
      requires state == MsInvalid ==> objectsAreMarked
      modifies this, stack
      ensures Inv(u) == true && Progress() && (stack == old(stack) || fresh(stack)) && stack.Length >= old(stack.Length)
      ensures state != MsNone
    {
      if scanPtr == 0 && state == MsInvalid {
        if tooSmall {
          AllocMarkStack(2 * stack.Length);
        }
        state := MsPartiallyInvalid;
        NothingBelow(marked, Stk());
      }
      if state == MsPartiallyInvalid {
        ScanMarked(u);
      } else {
        scanPtr := PushNextMarked(scanPtr, u);
      }
    }

    lemma NothingBelow(m: set<int>, s: seq<Entry>)
      requires Good(w)
      ensures ScannedBelow(w, m, s, 0) == true
    {
      forall i | 0 <= i < |w.blocks| ensures w.blocks[i].at > 0 {
        assert GoodBlock(w.blocks[i]);
      }
    }

    /** GC_mark_some: one step of marking.  It comes nearer to the end, or finishes with exactly the reachable objects
        marked. */
    method MarkSome(ghost u: set<int>) returns (done: bool)
      requires Inv(u) == true && state != MsNone
      modifies this, stack
      ensures Inv(u) == true && (stack == old(stack) || fresh(stack)) && stack.Length >= old(stack.Length)
      ensures !done ==> state != MsNone && Progress()
      ensures done ==> state == MsNone && objectsAreMarked && forall o :: o in marked <==> Reachable(w, u, o)
    {
      done := false;
      match state
      case MsNone =>
      case MsPushRescuers =>
        if top >= stack.Length - INITIAL_MARK_STACK_SIZE / 2 {
          tooSmall := true;
          MarkFromStack(u);
        } else {
          ScanMarked(u);
        }
      case MsPushUncollectable =>
        if top >= stack.Length / 4 {
          MarkFromStack(u);
        } else {
          ScanUncollectable(u);
        }
      case MsRootsPushed =>
        if top >= 0 {
          MarkFromStack(u);
        } else {
          assert Stk() == [];
          MarkedIsReachable(w, u, marked);
          state := MsNone;
          if tooSmall {
            AllocMarkStack(2 * stack.Length);
          }
          done := true;
        }
      case _ => Recover(u);
    }

    /** The cases MS_INVALID and MS_PARTIALLY_INVALID. */
    method Recover(ghost u: set<int>)
      requires Inv(u) == true && (state == MsInvalid || state == MsPartiallyInvalid)
      modifies this, stack
      ensures Inv(u) == true && Progress() && (stack == old(stack) || fresh(stack)) && stack.Length >= old(stack.Length)
      ensures state != MsNone
    {
      if !objectsAreMarked {
        state := MsPushUncollectable;
      } else if top >= 0 {
        MarkFromStack(u);
      } else {
        Rescan(u);
      }
    }

    /** GC_clear_marks, when no marking is going on. */
    method ClearMarks()
      requires Valid() && state == MsNone && top == -1
      modifies this`marked, this`state, this`scanPtr, this`objectsAreMarked
      ensures Inv(marked) == true && state == MsInvalid && marked <= old(marked)
      ensures forall o :: o in marked <==>
        o in old(marked) && exists i :: 0 <= i < |w.blocks| && o in w.blocks[i].objs && IsUncollectable(w.blocks[i])
    {
      ghost var m := marked;
      marked := set o | o in marked && InUncollectable(o);
      objectsAreMarked := false;
      state := MsInvalid;
      scanPtr := 0;
      forall o | o in marked ensures Reachable(w, marked, o) {
        ReachRoot(w, marked, o);
      }
      UncollectableOnly(marked, Stk());
    }

    predicate InUncollectable(o: int) {
      exists i :: 0 <= i < |w.blocks| && o in w.blocks[i].objs && IsUncollectable(w.blocks[i])
    }

    /** If only uncollectable objects are marked, only those of scannable kind need to be scanned. */
    lemma UncollectableOnly(m: set<int>, s: seq<Entry>)
      requires Good(w) && forall o | o in m :: InUncollectable(o)
      ensures UncScannedBelow(w, m, s, 0) == true
    {
      forall i, o {:trigger o in w.blocks[i].objs} | 0 <= i < |w.blocks| && o in w.blocks[i].objs && o in m &&
        (w.blocks[i].kind != UNCOLLECTABLE || w.blocks[i].at < 0) ensures AllResolved(w, m, s, Range(w, o))
      {
        var j :| 0 <= j < |w.blocks| && o in w.blocks[j].objs && IsUncollectable(w.blocks[j]);
        assert j == i && GoodBlock(w.blocks[i]);
        EmptyRange(w, m, s, o);
      }
    }

    /** GC_stopped_mark, when it is not told to stop early: mark until done. */
    method StoppedMark(ghost u: set<int>)
      requires Inv(u) == true && state != MsNone
      modifies this, stack
      ensures Finished() == true && u <= marked && (stack == old(stack) || fresh(stack)) && stack.Length >= old(stack.Length)
      ensures forall o :: o in marked <==> Reachable(w, u, o)
    {
      var done := false;
      while !done
        invariant Inv(u) == true && (stack == old(stack) || fresh(stack)) && stack.Length >= old(stack.Length)
        invariant if done then state == MsNone && objectsAreMarked && (forall o :: o in marked <==> Reachable(w, u, o))
                  else state != MsNone
        decreases if done then {} else Unmarked(), if done then 0 else 1, Rank(), BlocksLeft(scanPtr), Work(Stk())
      {
        done := MarkSome(u);
      }
      ReachableIsClosed(w, u, marked);
    }

    // ------------------------------------------------------------------------------- marking for finalization

    /** Marking is over, and everything pointed to from marked objects and roots is marked. */
    ghost predicate Finished()
      reads this, stack
    {
      Valid() && state == MsNone && top == -1 && objectsAreMarked && scanPtr >= 0 && Closed(w, marked) == true
    }

    lemma PreciseMore(u: set<int>)
      requires Valid() && marked <= u && top == -1
      ensures Stk() == [] && Precise(w, u, marked, Stk()) == true
    {
      assert Stk() == [];
      PreciseSelf(w, u, marked);
    }

    /** GC_ignore_self_finalize_mark_proc: mark what o points to, but for o itself. */
    method IgnoreSelfMarkProc(o: int)
      requires Valid() && o in w.descr
      modifies this`top, this`state, this`tooSmall, this`marked, stack
      ensures Came(old(ScanOthers(w, stack.Length, Now(), o, o, o + w.descr[o] - WORD_BYTES)), old(state)) == true
    {
      var q, limit := o, o + w.descr[o] - WORD_BYTES;
      ghost var s, st := Now(), state;
      while q <= limit
        invariant Valid() && (state == st || state == MsInvalid)
        invariant ScanOthers(w, stack.Length, s, o, o, limit) == ScanOthers(w, stack.Length, Now(), o, q, limit)
        decreases limit - q
      {
        var r := WordAt(w, q);
        if ObjOf(w, r) != o && w.least <= r < w.greatest {
          PushContents(r);
        }
        q := q + w.align;
      }
    }

    /** Call the mark procedure mp on the object o. */
    method CallMarkProc(o: int, mp: MarkProc)
      requires Valid() && o in w.descr
      modifies this`top, this`state, this`tooSmall, this`marked, stack
      ensures Came(old(Begin(w, stack.Length, Now(), o, mp)), old(state)) == true
    {
      match mp
      case Normal => PushObj(o, w.descr[o]);
      case WhenUnreachable => PushObj(o, w.descr[o]);
      case IgnoreSelf => IgnoreSelfMarkProc(o);
      case NullProc =>
    }

    /** Mark from the stack until it is empty. */
    method DrainStack(ghost u: set<int>)
      requires Valid() && Precise(w, u, marked, Stk()) == true && (state == MsInvalid || state == MsNone)
      requires objectsAreMarked
      modifies this`top, this`state, this`tooSmall, this`marked, this`objectsAreMarked, stack
      ensures Marking(old(Now()), old(state), u) == true && top == -1 && objectsAreMarked
    {
      ghost var s, st := Now(), state;
      NowOk();
      SimRefl(w, s);
      while top >= 0
        invariant Marking(s, st, u) == true && objectsAreMarked
        decreases w.descr.Keys - marked, Work(Stk())
      {
        ghost var s1, st1 := Now(), state;
        MarkFrom(u);
        MarkingTrans(s, st, s1, st1, u);
      }
    }

    lemma MarkingTrans(s: Sim, st: State, s1: Sim, st1: State, u: set<int>)
      requires Marking(s1, st1, u) == true && w.align > 0 && SimStep(w, s, s1) == true && st1 == if s1.over then MsInvalid else st
      requires GC_MARK_STACK_DISCARDS <= stack.Length && Ok(w, stack.Length, s) == true && Ok(w, stack.Length, s1) == true
      requires Drain(w, stack.Length, s1) == Drain(w, stack.Length, s)
      ensures Marking(s, st, u) == true
    {
      SimTrans(w, s, s1, Now());
    }

    /** From where everything reachable is marked, after a finalizable object was dealt with. */
    ghost function FoSource(m0: set<int>, o: int, mp: MarkProc, overflow: bool): set<int>
      requires w.align > 0
    {
      m0 + if overflow then {o} else Succ(w, o, mp)
    }

    lemma FoDone(o: int, mp: MarkProc, m0: set<int>, m1: set<int>, s1: seq<Entry>, m: set<int>)
      requires Good(w) && Closed(w, m0) == true && o in w.descr && m <= w.descr.Keys
      requires Keeps(w, m0, [], m, []) == true && Keeps(w, m1, s1, m, []) == true
      requires SuccResolved(w, o, mp, m1, s1) == true && Precise(w, m0 + Succ(w, o, mp), m, []) == true
      ensures (forall x :: x in m <==> Reachable(w, m0 + Succ(w, o, mp), x)) && Closed(w, m) == true
    {
      KeepsScanned(w, m0, [], m, [], 0);
      KeepsSucc(w, o, mp, m1, s1, m, []);
      SuccMarked(w, o, mp, m);
      MarkedIsReachable(w, m0 + Succ(w, o, mp), m);
      ReachableIsClosed(w, m0 + Succ(w, o, mp), m);
    }

    /** What is marked is what is reachable from the roots and src. */
    ghost predicate Exact(src: set<int>)
      requires w.align > 0
      reads this
    {
      forall x :: x in marked <==> Reachable(w, src, x)
    }

    /** GC_MARK_FO: mark what is reachable through the pointers in o that the mark procedure follows.  If the mark
        stack overflows, o itself is marked as well, and marking is started again. */
    method MarkFo(o: int, mp: MarkProc) returns (overflow: bool)
      requires Finished() == true && o in w.descr
      modifies this, stack
      ensures Finished() == true && (stack == old(stack) || fresh(stack)) && old(marked) <= marked && stack.Length >= old(stack.Length)
      ensures Exact(FoSource(old(marked), o, mp, overflow)) == true
      ensures overflow <==> Overflows(w, old(stack.Length), old(marked), o, mp)
      ensures !overflow ==> stack == old(stack)
    {
      ghost var m0, u, cap := marked, marked + Succ(w, o, mp), stack.Length;
      ghost var s0 := Sim(m0, [], false);
      NowOk();
      assert Now() == s0;
      BeginStep(w, cap, m0, o, mp);
      BeginPrecise(w, u, cap, m0, o, mp);
      CallMarkProc(o, mp);
      ghost var s1 := Now();
      SimToStep(w, s0, s1, MsNone);
      DrainStack(u);
      assert Stk() == [];
      overflow := state != MsNone;
      SimTrans(w, s0, s1, Now());
      if overflow {
        MarkAgain(o, mp, m0);
      } else {
        FoDone(o, mp, m0, s1.marked, s1.stk, marked);
      }
    }

    /** The second half of GC_MARK_FO, after an overflow. */
    method MarkAgain(o: int, mp: MarkProc, ghost m0: set<int>)
      requires Valid() && state == MsInvalid && objectsAreMarked && top == -1 && scanPtr >= 0
      requires o in w.descr && m0 <= marked && Precise(w, m0 + Succ(w, o, mp), marked, Stk()) == true
      modifies this, stack
      ensures Finished() == true && (stack == old(stack) || fresh(stack)) && m0 <= marked && stack.Length >= old(stack.Length)
      ensures forall x :: x in marked <==> Reachable(w, m0 + {o}, x)
    {
      marked := marked + {o};
      ghost var u := marked;
      AgainReach(o, mp, m0, u);
      PreciseMore(u);
      StoppedMark(u);
    }

    /** What is marked when marking starts again is reachable from m0 and o. */
    lemma AgainReach(o: int, mp: MarkProc, m0: set<int>, u: set<int>)
      requires Good(w) && o in w.descr && m0 + {o} <= u && u <= w.descr.Keys
      requires forall x | x in u && x != o :: Reachable(w, m0 + Succ(w, o, mp), x)
      ensures forall x :: Reachable(w, u, x) <==> Reachable(w, m0 + {o}, x)
    {
      var u1 := m0 + {o};
      ReachRoot(w, u1, o);
      forall x | x in m0 + Succ(w, o, mp) ensures Reachable(w, u1, x) {
        if x in m0 {
          ReachRoot(w, u1, x);
        } else {
          var p :| Candidate(w, Range(w, o), p) && Target(w, p) == x;
          ReachStep(w, u1, o, p);
        }
      }
      forall x | x in u ensures Reachable(w, u1, x) {
        if x != o {
          var n: nat :| ReachIn(w, m0 + Succ(w, o, mp), x, n);
          ReachTrans(w, u1, m0 + Succ(w, o, mp), x, n);
        }
      }
      forall x | x in u1 ensures Reachable(w, u, x) {
        ReachRoot(w, u, x);
      }
      ReachSame(w, u, u1);
    }
  }
}
