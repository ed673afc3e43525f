/**
 What GC_mark_from does (mark.c), as functions: words are looked at in order of their addresses, although the code puts
 off the last plausible pointer of a range, and entries are taken from a stack of bounded size.
 */
module MarkSteps {
  import opened Sizes
  import opened MarkGraph

  const GC_MARK_STACK_DISCARDS := INITIAL_MARK_STACK_SIZE / 8
  const SPLIT_RANGE_WORDS := 128
  /** The part of a range of len bytes that is scanned in one go. */
  const CHUNK := (SPLIT_RANGE_WORDS - 1) * WORD_BYTES

  /** The marked objects, the stack, and whether it overflowed. */
  datatype Sim = Sim(marked: set<int>, stk: seq<Entry>, over: bool)

  predicate GoodEntry(w: World, e: Entry)
    requires w.align > 0
  {
    e.len > 0 && e.len % w.align == 0
  }

  ghost predicate Ok(w: World, cap: nat, s: Sim) {
    && Good(w) && GC_MARK_STACK_DISCARDS <= cap && |s.stk| <= cap && s.marked <= w.descr.Keys
    && forall k {:trigger s.stk[k]} | 0 <= k < |s.stk| :: GoodEntry(w, s.stk[k])
  }

  // --------------------------------------------------------------------------------------------- the functions

  /** PUSH_OBJ: on overflow some entries are thrown away. */
  function Push(cap: nat, s: Sim, e: Entry): Sim
    requires |s.stk| <= cap && GC_MARK_STACK_DISCARDS <= cap
  {
    if e.len == 0 then s
    else if |s.stk| < cap then s.(stk := s.stk + [e])
    else s.(stk := s.stk[..cap - GC_MARK_STACK_DISCARDS] + [e], over := true)
  }

  /** PUSH_CONTENTS: if x points to an unmarked object, mark it and push it. */
  function Visit(w: World, cap: nat, s: Sim, x: int): (s1: Sim)
    requires |s.stk| <= cap && GC_MARK_STACK_DISCARDS <= cap
    ensures |s1.stk| <= cap
  {
    var o := ObjOf(w, x);
    if o in w.descr && o !in s.marked then Push(cap, s.(marked := s.marked + {o}), Range(w, o)) else s
  }

  /** The words from address cur to limit, in steps of the alignment. */
  function Scan(w: World, cap: nat, s: Sim, cur: int, limit: int): (s1: Sim)
    requires |s.stk| <= cap && GC_MARK_STACK_DISCARDS <= cap && w.align > 0
    ensures |s1.stk| <= cap
    decreases limit - cur
  {
    if cur > limit then s else Scan(w, cap, Visit(w, cap, s, WordAt(w, cur)), cur + w.align, limit)
  }

  /** The last address to be scanned in one go for entry e. */
  function LastWord(w: World, e: Entry): int {
    if e.len >= SPLIT_RANGE_WORDS * WORD_BYTES then e.start + CHUNK - w.align else e.start + e.len - WORD_BYTES
  }

  /** What stays on the stack for it. */
  function Rest(e: Entry): seq<Entry> {
    if e.len >= SPLIT_RANGE_WORDS * WORD_BYTES then [Entry(e.start + CHUNK, e.len - CHUNK)] else []
  }

  function Popped(s: Sim): Sim
    requires s.stk != []
  {
    var n := |s.stk| - 1;
    s.(stk := s.stk[..n] + Rest(s.stk[n]))
  }

  /** One round of the loop of GC_mark_from. */
  function Top(w: World, cap: nat, s: Sim): Sim
    requires |s.stk| <= cap && GC_MARK_STACK_DISCARDS <= cap && w.align > 0 && s.stk != []
  {
    var e := s.stk[|s.stk| - 1];
    Scan(w, cap, Popped(s), e.start, LastWord(w, e))
  }

  // ---------------------------------------------------------------------------------- what they keep and lose

  /** From s to s1 nothing is lost unless the stack overflows, which it does only if something new is marked. */
  ghost predicate SimStep(w: World, s: Sim, s1: Sim)
    requires w.align > 0
  {
    && s.marked <= s1.marked && (s.over ==> s1.over) && (s1.marked == s.marked ==> s1.over == s.over)
    && (!s1.over ==> Keeps(w, s.marked, s.stk, s1.marked, s1.stk) == true)
  }

  lemma SimRefl(w: World, s: Sim)
    requires w.align > 0
    ensures SimStep(w, s, s) == true
  {
    KeepsRefl(w, s.marked, s.stk);
  }

  lemma SimTrans(w: World, s: Sim, s1: Sim, s2: Sim)
    requires w.align > 0 && SimStep(w, s, s1) == true && SimStep(w, s1, s2) == true
    ensures SimStep(w, s, s2) == true
  {
    if !s2.over {
      KeepsTrans(w, s.marked, s.stk, s1.marked, s1.stk, s2.marked, s2.stk);
    }
  }

  lemma EmptyRange(w: World, m: set<int>, s: seq<Entry>, o: int)
    requires Good(w) && o in w.descr && w.descr[o] == 0
    ensures AllResolved(w, m, s, Range(w, o)) == true && Keeps(w, m, s, m, s) == true
  {
  }

  lemma VisitStep(w: World, cap: nat, s: Sim, x: int)
    requires Ok(w, cap, s) == true
    ensures var s1 := Visit(w, cap, s, x);
      && Ok(w, cap, s1) == true && SimStep(w, s, s1) == true && (s1.marked == s.marked ==> s1.stk == s.stk)
      && (ObjOf(w, x) == NONE || ObjOf(w, x) in s1.marked)
  {
    var o, s1 := ObjOf(w, x), Visit(w, cap, s, x);
    if s1.marked == s.marked {
      assert o !in w.descr || o in s.marked;
      SimRefl(w, s);
    } else {
      PushOk(w, cap, s.(marked := s.marked + {o}), Range(w, o));
      if !s1.over {
        if w.descr[o] > 0 {
          PushKeeps(w, s.marked, s.stk, Range(w, o));
        } else {
          EmptyRange(w, s.marked, s.stk, o);
        }
        MarkKeeps(w, s.marked, s.stk, o, s1.stk);
      }
    }
  }

  lemma PushOk(w: World, cap: nat, s: Sim, e: Entry)
    requires Ok(w, cap, s) == true && (e.len == 0 || GoodEntry(w, e))
    ensures Ok(w, cap, Push(cap, s, e)) == true
  {
  }

  /** No address from cur to limit in steps of the alignment holds a pointer to an unmarked object. */
  ghost predicate Scanned(w: World, m: set<int>, cur: int, limit: int)
    requires w.align > 0
  {
    forall p {:trigger Target(w, p)} | cur <= p <= limit && (p - cur) % w.align == 0 ::
      Target(w, p) == NONE || Target(w, p) in m
  }

  lemma {:induction false} ScanStep(w: World, cap: nat, s: Sim, cur: int, limit: int)
    requires Ok(w, cap, s) == true
    ensures var s1 := Scan(w, cap, s, cur, limit);
      && Ok(w, cap, s1) == true && SimStep(w, s, s1) == true && (s1.marked == s.marked ==> s1.stk == s.stk)
      && Scanned(w, s1.marked, cur, limit) == true
    decreases limit - cur
  {
    if cur > limit {
      SimRefl(w, s);
    } else {
      var s1 := Visit(w, cap, s, WordAt(w, cur));
      var s2 := Scan(w, cap, s1, cur + w.align, limit);
      VisitStep(w, cap, s, WordAt(w, cur));
      ScanStep(w, cap, s1, cur + w.align, limit);
      SimTrans(w, s, s1, s2);
      ScannedMore(w, s2.marked, cur, limit);
    }
  }

  lemma ScannedMore(w: World, m: set<int>, cur: int, limit: int)
    requires Good(w) && Scanned(w, m, cur + w.align, limit) && (Target(w, cur) == NONE || Target(w, cur) in m)
    ensures Scanned(w, m, cur, limit) == true
  {
    forall p {:trigger Target(w, p)} | cur <= p <= limit && (p - cur) % w.align == 0
      ensures Target(w, p) == NONE || Target(w, p) in m
    {
      if p != cur {
        NextMultiple(w.align, p - cur);
        assert p - cur - w.align == p - (cur + w.align);
      }
    }
  }

  lemma NextMultiple(a: int, d: int)
    requires (a == 4 || a == 8) && d % a == 0 && d > 0
    ensures d >= a && (d - a) % a == 0
  {
    if a == 4 {
      NextMultiple4(d);
    } else {
      NextMultiple8(d);
    }
  }

  lemma NextMultiple4(d: int)
    requires d % 4 == 0 && d > 0
    ensures d >= 4 && (d - 4) % 4 == 0
  {
  }

  lemma NextMultiple8(d: int)
    requires d % 8 == 0 && d > 0
    ensures d >= 8 && (d - 8) % 8 == 0
  {
  }

  lemma LaterCandidate(w: World, e: Entry, p: int)
    requires Good(w) && Candidate(w, e, p) && p > e.start + CHUNK - w.align
    ensures Candidate(w, Entry(e.start + CHUNK, e.len - CHUNK), p)
  {
    if w.align == 4 {
      LaterCandidate4(e.start, p);
    } else {
      LaterCandidate8(e.start, p);
    }
  }

  lemma LaterCandidate4(start: int, p: int)
    requires (p - start) % 4 == 0 && p > start + CHUNK - 4
    ensures p >= start + CHUNK && (p - (start + CHUNK)) % 4 == 0
  {
  }

  lemma LaterCandidate8(start: int, p: int)
    requires (p - start) % 8 == 0 && p > start + CHUNK - 8
    ensures p >= start + CHUNK && (p - (start + CHUNK)) % 8 == 0
  {
  }

  lemma ChunkAligned(a: int, len: int)
    requires (a == 4 || a == 8) && len % a == 0
    ensures (CHUNK - a) % a == 0 && (len - WORD_BYTES) % a == 0 && (len - CHUNK) % a == 0
  {
    if a == 4 {
      assert (len - 8) % 4 == 0;
    } else {
      assert (len - 8) % 8 == 0;
    }
  }

  /** Entry e was popped and replaced by its rest; the words before that were scanned. */
  lemma EntryDone(w: World, m: set<int>, s: seq<Entry>, e: Entry, m2: set<int>, s2: seq<Entry>)
    requires Good(w) && GoodEntry(w, e) && Keeps(w, m, s + Rest(e), m2, s2)
    requires Scanned(w, m2, e.start, LastWord(w, e))
    ensures Keeps(w, m, s + [e], m2, s2) == true
  {
    var s1 := s + Rest(e);
    forall p {:trigger Resolved(w, m2, s2, p)} | Resolved(w, m, s + [e], p) ensures Resolved(w, m2, s2, p) {
      if Pending(w, s + [e], p) {
        var k :| 0 <= k < |s + [e]| && Candidate(w, (s + [e])[k], p);
        if k < |s| {
          assert Candidate(w, s1[k], p);
          assert Resolved(w, m, s1, p);
        } else if p > LastWord(w, e) {
          LaterCandidate(w, e, p);
          assert Candidate(w, s1[|s|], p);
          assert Resolved(w, m, s1, p);
        }
      } else {
        assert Resolved(w, m, s1, p);
      }
    }
  }

  lemma PoppedOk(w: World, cap: nat, s: Sim)
    requires Ok(w, cap, s) == true && s.stk != []
    ensures Ok(w, cap, Popped(s)) == true && Work(Popped(s).stk) < Work(s.stk)
  {
    var n := |s.stk| - 1;
    var e, s0 := s.stk[n], s.stk[..n];
    assert GoodEntry(w, e);
    assert s.stk == s0 + [e];
    RestOk(w, e);
    PoppedWork(s0, e);
    forall k {:trigger Popped(s).stk[k]} | 0 <= k < |Popped(s).stk| ensures GoodEntry(w, Popped(s).stk[k]) {
      if k < n {
        assert Popped(s).stk[k] == s.stk[k];
      } else {
        assert Popped(s).stk[k] == Rest(e)[0];
      }
    }
  }

  lemma RestOk(w: World, e: Entry)
    requires Good(w) && GoodEntry(w, e)
    ensures |Rest(e)| <= 1 && (Rest(e) != [] ==> GoodEntry(w, Rest(e)[0]))
  {
    ChunkAligned(w.align, e.len);
  }

  lemma PoppedWork(s: seq<Entry>, e: Entry)
    requires e.len > 0
    ensures Work(s + Rest(e)) < Work(s + [e])
  {
    WorkPush(s, e);
    if Rest(e) != [] {
      WorkPush(s, Rest(e)[0]);
    } else {
      assert s + [] == s;
    }
  }

  /** A round of the loop loses nothing, and either marks something or leaves less to do. */
  lemma TopStep(w: World, cap: nat, s: Sim)
    requires Ok(w, cap, s) == true && s.stk != []
    ensures var s1 := Top(w, cap, s);
      Ok(w, cap, s1) == true && SimStep(w, s, s1) == true && (s1.marked == s.marked ==> Work(s1.stk) < Work(s.stk))
  {
    var n, s1 := |s.stk| - 1, Top(w, cap, s);
    var e := s.stk[n];
    assert GoodEntry(w, e) && s.stk == s.stk[..n] + [e];
    PoppedOk(w, cap, s);
    ScanStep(w, cap, Popped(s), e.start, LastWord(w, e));
    if !s1.over {
      EntryDone(w, s.marked, s.stk[..n], e, s1.marked, s1.stk);
    }
  }

  /** Words that point to nothing. */
  lemma {:induction false} ScanNothing(w: World, cap: nat, s: Sim, cur: int, limit: int, from: int)
    requires Ok(w, cap, s) == true && from <= cur && (cur - from) % w.align == 0
    requires forall p {:trigger Target(w, p)} | from <= p <= limit && (p - from) % w.align == 0 :: Target(w, p) == NONE
    ensures Scan(w, cap, s, cur, limit) == s
    decreases limit - cur
  {
    if cur <= limit {
      assert Target(w, cur) == NONE;
      OneFurther(w.align, cur - from);
      assert cur - from + w.align == cur + w.align - from;
      ScanNothing(w, cap, s, cur + w.align, limit, from);
    }
  }

  /** A range can be scanned in two parts. */
  lemma {:induction false} ScanSplit(w: World, cap: nat, s: Sim, cur: int, mid: int, limit: int)
    requires |s.stk| <= cap && GC_MARK_STACK_DISCARDS <= cap && (w.align == 4 || w.align == 8)
    requires cur - w.align <= mid <= limit && (mid - cur) % w.align == 0
    ensures Scan(w, cap, s, cur, limit) == Scan(w, cap, Scan(w, cap, s, cur, mid), mid + w.align, limit)
    decreases limit - cur
  {
    if cur <= mid {
      if mid - cur > 0 {
        NextMultiple(w.align, mid - cur);
      } else {
        assert w.align == 4 || w.align == 8;
        assert (mid - cur - w.align) % w.align == 0 by {
          OneLessMultiple(w.align);
        }
      }
      assert mid - cur - w.align == mid - (cur + w.align);
      ScanSplit(w, cap, Visit(w, cap, s, WordAt(w, cur)), cur + w.align, mid, limit);
    } else {
      AboutZero(w.align, mid - cur);
    }
  }

  lemma SameMultiples(a: int, x: int, y: int)
    requires (a == 4 || a == 8) && x % a == 0 && y % a == 0
    ensures (x + y + 2 * a) % a == 0
  {
    if a == 4 {
      SameMultiples4(x, y);
    } else {
      SameMultiples8(x, y);
    }
  }

  lemma SameMultiples4(x: int, y: int)
    requires x % 4 == 0 && y % 4 == 0
    ensures (x + y + 8) % 4 == 0
  {
  }

  lemma SameMultiples8(x: int, y: int)
    requires x % 8 == 0 && y % 8 == 0
    ensures (x + y + 16) % 8 == 0
  {
  }

  /** Going down by one step from the address p, a multiple of the alignment above cur. */
  lemma StepDown(a: int, cur: int, p: int)
    requires (a == 4 || a == 8) && cur <= p && (p - cur) % a == 0
    ensures (p - a - cur) % a == 0 && (p - a < cur ==> p == cur)
    ensures forall q {:trigger (q - cur) % a} | p - a < q < p :: (q - cur) % a != 0
  {
    if a == 4 {
      StepDown4(cur, p);
    } else {
      StepDown8(cur, p);
    }
  }

  lemma StepDown4(cur: int, p: int)
    requires cur <= p && (p - cur) % 4 == 0
    ensures (p - 4 - cur) % 4 == 0 && (p - 4 < cur ==> p == cur)
    ensures forall q {:trigger (q - cur) % 4} | p - 4 < q < p :: (q - cur) % 4 != 0
  {
  }

  lemma StepDown8(cur: int, p: int)
    requires cur <= p && (p - cur) % 8 == 0
    ensures (p - 8 - cur) % 8 == 0 && (p - 8 < cur ==> p == cur)
    ensures forall q {:trigger (q - cur) % 8} | p - 8 < q < p :: (q - cur) % 8 != 0
  {
  }

  lemma OneLessMultiple(a: int)
    requires a == 4 || a == 8
    ensures (0 - a) % a == 0
  {
  }

  lemma AboutZero(a: int, d: int)
    requires (a == 4 || a == 8) && -a <= d < 0 && d % a == 0
    ensures d == -a
  {
  }

  // -------------------------------------------------------------------------------- nothing else is marked

  lemma PushPrecise(w: World, u: set<int>, cap: nat, s: Sim, o: int)
    requires Ok(w, cap, s) == true && Precise(w, u, s.marked, s.stk) == true && o in w.descr && Reachable(w, u, o)
    ensures var s1 := Push(cap, s, Range(w, o)); Precise(w, u, s1.marked + {o}, s1.stk) == true
  {
    PreciseRange(w, u, o);
  }

  lemma VisitPrecise(w: World, u: set<int>, cap: nat, s: Sim, x: int)
    requires Ok(w, cap, s) == true && Precise(w, u, s.marked, s.stk) == true
    requires ObjOf(w, x) == NONE || Reachable(w, u, ObjOf(w, x))
    ensures var s1 := Visit(w, cap, s, x); Precise(w, u, s1.marked, s1.stk) == true
  {
    var o := ObjOf(w, x);
    if o in w.descr && o !in s.marked {
      PushPrecise(w, u, cap, s, o);
    }
  }

  lemma {:induction false} ScanPrecise(w: World, u: set<int>, cap: nat, s: Sim, cur: int, limit: int, from: int)
    requires Ok(w, cap, s) == true && Precise(w, u, s.marked, s.stk) == true
    requires from <= cur && (cur - from) % w.align == 0
    requires forall p {:trigger Target(w, p)} | from <= p <= limit && (p - from) % w.align == 0 ::
               Target(w, p) == NONE || Reachable(w, u, Target(w, p))
    ensures var s1 := Scan(w, cap, s, cur, limit); Precise(w, u, s1.marked, s1.stk) == true
    decreases limit - cur
  {
    if cur <= limit {
      assert Target(w, cur) == NONE || Reachable(w, u, Target(w, cur));
      VisitPrecise(w, u, cap, s, WordAt(w, cur));
      VisitStep(w, cap, s, WordAt(w, cur));
      OneFurther(w.align, cur - from);
      assert cur - from + w.align == cur + w.align - from;
      ScanPrecise(w, u, cap, Visit(w, cap, s, WordAt(w, cur)), cur + w.align, limit, from);
    }
  }

  lemma OneFurther(a: int, d: int)
    requires (a == 4 || a == 8) && d % a == 0
    ensures (d + a) % a == 0
  {
    if a == 4 {
      assert (d + 4) % 4 == 0;
    } else {
      assert (d + 8) % 8 == 0;
    }
  }

  lemma RestPrecise(w: World, u: set<int>, e: Entry)
    requires Good(w) && GoodEntry(w, e) && PreciseEntry(w, u, e)
    ensures forall r {:trigger PreciseEntry(w, u, r)} | r in Rest(e) :: PreciseEntry(w, u, r)
    ensures forall p {:trigger Target(w, p)} | e.start <= p <= LastWord(w, e) && (p - e.start) % w.align == 0 ::
              Target(w, p) == NONE || Reachable(w, u, Target(w, p))
  {
    forall r {:trigger PreciseEntry(w, u, r)} | r in Rest(e) ensures PreciseEntry(w, u, r) {
      forall p {:trigger Candidate(w, r, p)} | Candidate(w, r, p) ensures Target(w, p) == NONE || Reachable(w, u, Target(w, p)) {
        RestCandidate(w, e, p);
        assert Candidate(w, e, p);
      }
    }
    forall p {:trigger Target(w, p)} | e.start <= p <= LastWord(w, e) && (p - e.start) % w.align == 0
      ensures Target(w, p) == NONE || Reachable(w, u, Target(w, p))
    {
      assert Candidate(w, e, p);
    }
  }

  lemma RestCandidate(w: World, e: Entry, p: int)
    requires Good(w) && Candidate(w, Entry(e.start + CHUNK, e.len - CHUNK), p)
    ensures Candidate(w, e, p)
  {
    if w.align == 4 {
      assert (p - (e.start + CHUNK)) % 4 == 0 ==> (p - e.start) % 4 == 0;
    } else {
      assert (p - (e.start + CHUNK)) % 8 == 0 ==> (p - e.start) % 8 == 0;
    }
  }

  lemma TopPrecise(w: World, u: set<int>, cap: nat, s: Sim)
    requires Ok(w, cap, s) == true && s.stk != [] && Precise(w, u, s.marked, s.stk) == true
    ensures var s1 := Top(w, cap, s); Precise(w, u, s1.marked, s1.stk) == true
  {
    var n, p := |s.stk| - 1, Popped(s);
    var e := s.stk[n];
    assert GoodEntry(w, e) && PreciseEntry(w, u, e);
    RestPrecise(w, u, e);
    PoppedOk(w, cap, s);
    assert Precise(w, u, p.marked, p.stk) by {
      forall k {:trigger PreciseEntry(w, u, p.stk[k])} | 0 <= k < |p.stk| ensures PreciseEntry(w, u, p.stk[k]) {
        if k < n {
          assert p.stk[k] == s.stk[k];
        } else {
          assert p.stk[k] in Rest(e);
        }
      }
    }
    ScanPrecise(w, u, cap, p, e.start, LastWord(w, e), e.start);
  }

  // ------------------------------------------------------------------------------------ marking to the end

  /** Rounds until the stack is empty. */
  ghost function Drain(w: World, cap: nat, s: Sim): Sim
    requires Ok(w, cap, s) == true
    decreases w.descr.Keys - s.marked, Work(s.stk)
  {
    if s.stk == [] then s
    else
      TopStep(w, cap, s);
      Drain(w, cap, Top(w, cap, s))
  }

  lemma {:induction false} DrainStep(w: World, cap: nat, s: Sim)
    requires Ok(w, cap, s) == true
    ensures var s1 := Drain(w, cap, s); Ok(w, cap, s1) == true && SimStep(w, s, s1) == true && s1.stk == []
    decreases w.descr.Keys - s.marked, Work(s.stk)
  {
    if s.stk == [] {
      SimRefl(w, s);
    } else {
      TopStep(w, cap, s);
      DrainStep(w, cap, Top(w, cap, s));
      SimTrans(w, s, Top(w, cap, s), Drain(w, cap, s));
    }
  }

  /** The words of o from address q to limit, but for pointers to o itself. */
  function ScanOthers(w: World, cap: nat, s: Sim, o: int, q: int, limit: int): (s1: Sim)
    requires |s.stk| <= cap && GC_MARK_STACK_DISCARDS <= cap && w.align > 0
    ensures |s1.stk| <= cap
    decreases limit - q
  {
    if q > limit then s
    else ScanOthers(w, cap, if Target(w, q) == o then s else Visit(w, cap, s, WordAt(w, q)), o, q + w.align, limit)
  }

  /** What the mark procedure mp does for object o. */
  function Begin(w: World, cap: nat, s: Sim, o: int, mp: MarkProc): (s1: Sim)
    requires |s.stk| <= cap && GC_MARK_STACK_DISCARDS <= cap && w.align > 0 && o in w.descr
    ensures |s1.stk| <= cap
  {
    match mp
    case NullProc => s
    case IgnoreSelf => ScanOthers(w, cap, s, o, o, o + w.descr[o] - WORD_BYTES)
    case _ => Push(cap, s, Range(w, o))
  }

  /** The words of o from q on that do not point to o point to objects of m. */
  ghost predicate OthersDone(w: World, m: set<int>, o: int, q: int, limit: int)
    requires w.align > 0
  {
    forall p {:trigger Target(w, p)} | q <= p <= limit && (p - q) % w.align == 0 ::
      Target(w, p) == NONE || Target(w, p) == o || Target(w, p) in m
  }

  lemma {:induction false} OthersStep(w: World, cap: nat, s: Sim, o: int, q: int, limit: int)
    requires Ok(w, cap, s) == true
    ensures var s1 := ScanOthers(w, cap, s, o, q, limit);
      && Ok(w, cap, s1) == true && SimStep(w, s, s1) == true && OthersDone(w, s1.marked, o, q, limit) == true
    decreases limit - q
  {
    if q > limit {
      SimRefl(w, s);
    } else {
      var s1 := if Target(w, q) == o then s else Visit(w, cap, s, WordAt(w, q));
      SimRefl(w, s);
      if Target(w, q) != o {
        VisitStep(w, cap, s, WordAt(w, q));
      }
      OthersStep(w, cap, s1, o, q + w.align, limit);
      SimTrans(w, s, s1, ScanOthers(w, cap, s, o, q, limit));
      OthersMore(w, ScanOthers(w, cap, s, o, q, limit).marked, o, q, limit);
    }
  }

  lemma OthersMore(w: World, m: set<int>, o: int, q: int, limit: int)
    requires Good(w) && OthersDone(w, m, o, q + w.align, limit)
    requires Target(w, q) == NONE || Target(w, q) == o || Target(w, q) in m
    ensures OthersDone(w, m, o, q, limit) == true
  {
    forall p {:trigger Target(w, p)} | q <= p <= limit && (p - q) % w.align == 0
      ensures Target(w, p) == NONE || Target(w, p) == o || Target(w, p) in m
    {
      if p != q {
        NextMultiple(w.align, p - q);
        assert p - q - w.align == p - (q + w.align);
      }
    }
  }

  lemma {:induction false} OthersPrecise(w: World, u: set<int>, cap: nat, s: Sim, o: int, q: int, limit: int)
    requires Ok(w, cap, s) == true && Precise(w, u, s.marked, s.stk) == true && o in w.descr && Succ(w, o, IgnoreSelf) <= u
    requires o <= q && (q - o) % w.align == 0 && limit == o + w.descr[o] - WORD_BYTES
    ensures var s1 := ScanOthers(w, cap, s, o, q, limit); Precise(w, u, s1.marked, s1.stk) == true
    decreases limit - q
  {
    if q <= limit {
      var s1 := if Target(w, q) == o then s else Visit(w, cap, s, WordAt(w, q));
      if Target(w, q) != o {
        if Target(w, q) != NONE {
          assert Candidate(w, Range(w, o), q);
          SuccReach(w, o, IgnoreSelf, u, q);
        }
        VisitPrecise(w, u, cap, s, WordAt(w, q));
        VisitStep(w, cap, s, WordAt(w, q));
      }
      OneFurther(w.align, q - o);
      assert q - o + w.align == q + w.align - o;
      OthersPrecise(w, u, cap, s1, o, q + w.align, limit);
    }
  }

  /** What the mark procedure does for o when the stack is empty. */
  lemma BeginStep(w: World, cap: nat, m: set<int>, o: int, mp: MarkProc)
    requires Ok(w, cap, Sim(m, [], false)) == true && o in w.descr && cap > 0
    ensures var s1 := Begin(w, cap, Sim(m, [], false), o, mp);
      && Ok(w, cap, s1) == true && SimStep(w, Sim(m, [], false), s1) == true
      && SuccResolved(w, o, mp, s1.marked, s1.stk) == true
  {
    var s0 := Sim(m, [], false);
    match mp
    case NullProc => SimRefl(w, s0);
    case IgnoreSelf => OthersStep(w, cap, s0, o, o, o + w.descr[o] - WORD_BYTES);
    case _ => BeginNormal(w, cap, m, o, mp);
  }

  lemma BeginNormal(w: World, cap: nat, m: set<int>, o: int, mp: MarkProc)
    requires Ok(w, cap, Sim(m, [], false)) == true && o in w.descr && cap > 0
    ensures var s1 := Push(cap, Sim(m, [], false), Range(w, o));
      && Ok(w, cap, s1) == true && SimStep(w, Sim(m, [], false), s1) == true
      && SuccResolved(w, o, mp, s1.marked, s1.stk) == true
  {
    var s0 := Sim(m, [], false);
    PushOk(w, cap, s0, Range(w, o));
    PushKeeps(w, m, [], Range(w, o));
    EmptyKeeps(w, m, o);
  }

  lemma EmptyKeeps(w: World, m: set<int>, o: int)
    requires Good(w) && o in w.descr
    ensures w.descr[o] == 0 ==> AllResolved(w, m, [], Range(w, o)) == true && Keeps(w, m, [], m, []) == true
  {
    if w.descr[o] == 0 {
      EmptyRange(w, m, [], o);
    }
  }

  lemma BeginPrecise(w: World, u: set<int>, cap: nat, m: set<int>, o: int, mp: MarkProc)
    requires Ok(w, cap, Sim(m, [], false)) == true && o in w.descr && cap > 0 && m + Succ(w, o, mp) <= u
    ensures var s1 := Begin(w, cap, Sim(m, [], false), o, mp); Precise(w, u, s1.marked, s1.stk) == true
  {
    PreciseSelf(w, u, m);
    match mp
    case NullProc =>
    case IgnoreSelf => OthersPrecise(w, u, cap, Sim(m, [], false), o, o, o + w.descr[o] - WORD_BYTES);
    case _ => SuccPrecise(w, o, mp, u);
  }

  lemma {:induction false} DrainPrecise(w: World, u: set<int>, cap: nat, s: Sim)
    requires Ok(w, cap, s) == true && Precise(w, u, s.marked, s.stk) == true
    ensures Precise(w, u, Drain(w, cap, s).marked, Drain(w, cap, s).stk) == true
    decreases w.descr.Keys - s.marked, Work(s.stk)
  {
    if s.stk != [] {
      TopStep(w, cap, s);
      TopPrecise(w, u, cap, s);
      DrainPrecise(w, u, cap, Top(w, cap, s));
    }
  }

  // ------------------------------------------------------------------- when marking from one object overflows

  /** GC_MARK_FO overflows a mark stack of cap entries for object o, when m is marked. */
  ghost predicate Overflows(w: World, cap: nat, m: set<int>, o: int, mp: MarkProc) {
    Ok(w, cap, Sim(m, [], false)) == true && o in w.descr && cap > 0 && DrainOverflows(w, cap, m, o, mp)
  }

  ghost predicate DrainOverflows(w: World, cap: nat, m: set<int>, o: int, mp: MarkProc)
    requires Ok(w, cap, Sim(m, [], false)) == true && o in w.descr && cap > 0
  {
    BeginStep(w, cap, m, o, mp);
    Drain(w, cap, Begin(w, cap, Sim(m, [], false), o, mp)).over
  }

  /** The objects reachable from the roots and u. */
  ghost function ReachSet(w: World, u: set<int>): set<int>
    requires w.align > 0
  {
    set x | x in w.descr && Reachable(w, u, x)
  }

  /** The unmarked objects that are reachable through the pointers in o that the mark procedure follows. */
  ghost function Ahead(w: World, m: set<int>, o: int, mp: MarkProc): set<int>
    requires w.align > 0 && o in w.descr
  {
    ReachSet(w, m + Succ(w, o, mp)) - m
  }

  /** There is room on the stack for all objects of r that are not yet marked. */
  predicate Room(cap: nat, r: set<int>, s: Sim) {
    !s.over && |s.stk| + |r - s.marked| <= cap
  }

  lemma OneLess(all: set<int>, m: set<int>, o: int)
    requires o in all && o !in m
    ensures |all - (m + {o})| == |all - m| - 1
  {
    assert all - m == (all - (m + {o})) + {o};
  }

  lemma VisitRoom(w: World, cap: nat, r: set<int>, s: Sim, x: int)
    requires Ok(w, cap, s) == true && Room(cap, r, s) && (ObjOf(w, x) == NONE || ObjOf(w, x) in r)
    ensures Room(cap, r, Visit(w, cap, s, x))
  {
    var o := ObjOf(w, x);
    if o in w.descr && o !in s.marked {
      OneLess(r, s.marked, o);
    }
  }

  lemma {:induction false} ScanRoom(w: World, cap: nat, r: set<int>, s: Sim, cur: int, limit: int, from: int)
    requires Ok(w, cap, s) == true && Room(cap, r, s)
    requires from <= cur && (cur - from) % w.align == 0
    requires forall p {:trigger Target(w, p)} | from <= p <= limit && (p - from) % w.align == 0 ::
               Target(w, p) == NONE || Target(w, p) in r
    ensures Room(cap, r, Scan(w, cap, s, cur, limit))
    decreases limit - cur
  {
    if cur <= limit {
      assert Target(w, cur) == NONE || Target(w, cur) in r;
      VisitStep(w, cap, s, WordAt(w, cur));
      VisitRoom(w, cap, r, s, WordAt(w, cur));
      OneFurther(w.align, cur - from);
      assert cur - from + w.align == cur + w.align - from;
      ScanRoom(w, cap, r, Visit(w, cap, s, WordAt(w, cur)), cur + w.align, limit, from);
    }
  }

  lemma TopRoom(w: World, u: set<int>, cap: nat, s: Sim)
    requires Ok(w, cap, s) == true && s.stk != [] && Precise(w, u, s.marked, s.stk) == true && Room(cap, ReachSet(w, u), s)
    ensures Room(cap, ReachSet(w, u), Top(w, cap, s))
  {
    var e := s.stk[|s.stk| - 1];
    assert GoodEntry(w, e) && PreciseEntry(w, u, e);
    RestPrecise(w, u, e);
    PoppedOk(w, cap, s);
    forall p {:trigger Target(w, p)} | e.start <= p <= LastWord(w, e) && (p - e.start) % w.align == 0
      ensures Target(w, p) == NONE || Target(w, p) in ReachSet(w, u)
    {
      InReachSet(w, u, p);
    }
    ScanRoom(w, cap, ReachSet(w, u), Popped(s), e.start, LastWord(w, e), e.start);
  }

  lemma InReachSet(w: World, u: set<int>, p: int)
    requires Good(w) && (Target(w, p) == NONE || Reachable(w, u, Target(w, p)))
    ensures Target(w, p) == NONE || Target(w, p) in ReachSet(w, u)
  {
    if Target(w, p) != NONE {
      assert WordAt(w, p) in w.objOf;
    }
  }

  lemma {:induction false} DrainRoom(w: World, u: set<int>, cap: nat, s: Sim)
    requires Ok(w, cap, s) == true && Precise(w, u, s.marked, s.stk) == true && Room(cap, ReachSet(w, u), s)
    ensures !Drain(w, cap, s).over
    decreases w.descr.Keys - s.marked, Work(s.stk)
  {
    if s.stk != [] {
      TopStep(w, cap, s);
      TopPrecise(w, u, cap, s);
      TopRoom(w, u, cap, s);
      DrainRoom(w, u, cap, Top(w, cap, s));
    }
  }

  lemma {:induction false} OthersRoom(w: World, r: set<int>, cap: nat, s: Sim, o: int, q: int, limit: int)
    requires Ok(w, cap, s) == true && Room(cap, r, s) && o in w.descr && Succ(w, o, IgnoreSelf) <= r
    requires o <= q && (q - o) % w.align == 0 && limit == o + w.descr[o] - WORD_BYTES
    ensures Room(cap, r, ScanOthers(w, cap, s, o, q, limit))
    decreases limit - q
  {
    if q <= limit {
      var s1 := if Target(w, q) == o then s else Visit(w, cap, s, WordAt(w, q));
      if Target(w, q) != o {
        OtherIsSucc(w, o, q);
        VisitRoom(w, cap, r, s, WordAt(w, q));
        VisitStep(w, cap, s, WordAt(w, q));
      }
      OneFurther(w.align, q - o);
      assert q - o + w.align == q + w.align - o;
      OthersRoom(w, r, cap, s1, o, q + w.align, limit);
    }
  }

  lemma OtherIsSucc(w: World, o: int, q: int)
    requires Good(w) && o in w.descr && Candidate(w, Range(w, o), q) && Target(w, q) != o
    ensures Target(w, q) == NONE || Target(w, q) in Succ(w, o, IgnoreSelf)
  {
    if Target(w, q) != NONE {
      assert WordAt(w, q) in w.objOf;
      assert Edge(w, o, Target(w, q));
    }
  }

  lemma SuccReached(w: World, m: set<int>, o: int, mp: MarkProc)
    requires Good(w) && o in w.descr
    ensures Succ(w, o, mp) <= ReachSet(w, m + Succ(w, o, mp))
  {
    forall x | x in Succ(w, o, mp) ensures Reachable(w, m + Succ(w, o, mp), x) {
      ReachRoot(w, m + Succ(w, o, mp), x);
    }
  }

  /** With fewer objects ahead than places there is room when marking from o begins. */
  lemma BeginRoom(w: World, cap: nat, m: set<int>, o: int, mp: MarkProc, r: set<int>)
    requires Ok(w, cap, Sim(m, [], false)) == true && o in w.descr && cap > 0 && |r - m| < cap && Succ(w, o, mp) <= r
    ensures Room(cap, r, Begin(w, cap, Sim(m, [], false), o, mp))
  {
    if mp == IgnoreSelf {
      OthersRoom(w, r, cap, Sim(m, [], false), o, o, o + w.descr[o] - WORD_BYTES);
    }
  }

  /** Marking from o overflows the stack only if there are at least as many unmarked objects ahead as it has places. */
  lemma OverflowNeeds(w: World, cap: nat, m: set<int>, o: int, mp: MarkProc)
    requires Good(w) && o in w.descr && Overflows(w, cap, m, o, mp)
    ensures |Ahead(w, m, o, mp)| >= cap
  {
    if |Ahead(w, m, o, mp)| < cap {
      BeginStep(w, cap, m, o, mp);
      BeginPrecise(w, m + Succ(w, o, mp), cap, m, o, mp);
      SuccReached(w, m, o, mp);
      BeginRoom(w, cap, m, o, mp, ReachSet(w, m + Succ(w, o, mp)));
      DrainRoom(w, m + Succ(w, o, mp), cap, Begin(w, cap, Sim(m, [], false), o, mp));
    }
  }

  lemma {:induction false} AheadIn(w: World, m: set<int>, m1: set<int>, o: int, mp: MarkProc, x: int, n: nat)
    requires Good(w) && o in w.descr && m <= m1 && Closed(w, m1) && ReachIn(w, m1 + Succ(w, o, mp), x, n)
    ensures x in m1 || Reachable(w, m + Succ(w, o, mp), x)
    decreases n
  {
    if n == 0 {
      if RootObj(w, x) || x in Succ(w, o, mp) {
        ReachRoot(w, m + Succ(w, o, mp), x);
      }
    } else {
      var q :| ReachIn(w, m1 + Succ(w, o, mp), q, n - 1) && Edge(w, q, x);
      AheadIn(w, m, m1, o, mp, q, n - 1);
      var p :| Candidate(w, Range(w, q), p) && Target(w, p) == x;
      if q in m1 {
        assert AllResolved(w, m1, [], Range(w, q));
        assert Resolved(w, m1, [], p);
      } else {
        ReachStep(w, m + Succ(w, o, mp), q, p);
      }
    }
  }

  /** The more is marked the less is ahead. */
  lemma AheadShrinks(w: World, m: set<int>, m1: set<int>, o: int, mp: MarkProc)
    requires Good(w) && o in w.descr && m <= m1 && Closed(w, m1)
    ensures Ahead(w, m1, o, mp) <= Ahead(w, m, o, mp) && |Ahead(w, m1, o, mp)| <= |Ahead(w, m, o, mp)|
  {
    var a, b := Ahead(w, m1, o, mp), Ahead(w, m, o, mp);
    forall x | x in a ensures x in b {
      var n: nat :| ReachIn(w, m1 + Succ(w, o, mp), x, n);
      AheadIn(w, m, m1, o, mp, x, n);
    }
    assert b == a + (b - a);
  }

  // --------------------------------------------------------------------------------- a heap that overflows it

  const BIG := SPLIT_RANGE_WORDS * WORD_BYTES

  /** Object i of the list, in a block of its own. */
  function NodeAt(i: int): int {
    4096 * (i + 1)
  }

  function NodeBlock(i: int): Block {
    Block(i + 1, 1, 1, BIG, [NodeAt(i)])
  }

  predicate IsNode(n: int, x: int) {
    x % 4096 == 0 && 4096 <= x <= 4096 * n
  }

  function Nodes(n: nat): (s: set<int>)
    ensures forall x {:trigger x in s} :: x in s <==> IsNode(n, x)
    ensures |s| == n
  {
    if n == 0 then {} else Nodes(n - 1) + {NodeAt(n - 1)}
  }

  /** A list of n + 1 big objects; the first word of each but the last points to the next. */
  function ListWorld(n: nat): World {
    World(8, map x {:trigger x in Nodes(n)} | x in Nodes(n) :: x + 4096, map x {:trigger x in Nodes(n + 1)} | x in Nodes(n + 1) :: x,
          0, NodeAt(n + 1), seq(n + 1, i => NodeBlock(i)), map x {:trigger x in Nodes(n + 1)} | x in Nodes(n + 1) :: BIG, [], [])
  }

  lemma ListBlocks(n: nat, i: int)
    requires 0 <= i <= n
    ensures var w := ListWorld(n);
      |w.blocks| == n + 1 && w.blocks[i] == NodeBlock(i) && NodeAt(i) in w.descr && w.descr[NodeAt(i)] == BIG
  {
  }

  /** A heap laid out like the list is a good one. */
  lemma GoodFrom(w: World, n: nat)
    requires w.align == 8 && |w.ranges| == 0 && |w.blocks| == n + 1
    requires forall i | 0 <= i <= n :: w.blocks[i] == NodeBlock(i)
    requires forall x {:trigger x in w.descr} :: x in w.descr <==> IsNode(n + 1, x)
    requires forall x {:trigger w.descr[x]} | x in w.descr :: w.descr[x] == BIG
    requires forall x {:trigger x in w.objOf} | x in w.objOf :: w.least <= x < w.greatest && w.objOf[x] in w.descr
    ensures Good(w) == true
  {
    assert BIG % 8 == 0;
    forall o | o in w.descr ensures InSome(w, o) {
      var i := o / 4096 - 1;
      assert 0 <= i <= n && NodeAt(i) == o && o in w.blocks[i].objs;
    }
    forall i, o | 0 <= i < |w.blocks| && o in w.blocks[i].objs ensures o == NodeAt(i) && o in w.descr {
    }
    forall i | 0 <= i < |w.blocks| ensures GoodBlock(w.blocks[i]) {
    }
  }

  lemma ListGood(n: nat)
    ensures Good(ListWorld(n)) == true
  {
    var w := ListWorld(n);
    forall i | 0 <= i <= n ensures w.blocks[i] == NodeBlock(i) {
      ListBlocks(n, i);
    }
    ListWords(n);
    GoodFrom(w, n);
  }

  lemma ListWords(n: nat)
    ensures var w := ListWorld(n);
      && (forall x {:trigger x in w.objOf} | x in w.objOf :: w.least <= x < w.greatest && w.objOf[x] in w.descr)
      && (forall x {:trigger x in w.descr} :: x in w.descr <==> IsNode(n + 1, x))
      && (forall x {:trigger w.descr[x]} | x in w.descr :: w.descr[x] == BIG)
  {
  }

  lemma ListClosed(n: nat)
    requires Good(ListWorld(n))
    ensures Closed(ListWorld(n), {}) == true
  {
  }

  /** What a word of the list points to. */
  lemma ListTarget(n: nat, i: int, p: int)
    requires 0 <= i <= n && NodeAt(i) <= p < NodeAt(i) + BIG
    ensures Target(ListWorld(n), p) == if p == NodeAt(i) && i < n then NodeAt(i + 1) else NONE
  {
    var w := ListWorld(n);
    assert p in w.mem <==> p == NodeAt(i) && i < n;
    if p in w.mem {
      assert NodeAt(i + 1) in w.objOf;
    } else {
      assert WordAt(w, p) == 0 && 0 !in w.objOf;
    }
  }

  /** Objects 1 to k are marked; of all but the last a first part was scanned. */
  function ListSim(k: nat): Sim {
    Sim(Nodes(k + 1) - {NodeAt(0)}, seq(k, i => Entry(NodeAt(i) + CHUNK, BIG - CHUNK)) + [Entry(NodeAt(k), BIG)], false)
  }

  /** The list up to object k, popped. */
  lemma ListPopped(k: nat)
    ensures Popped(ListSim(k)) ==
      Sim(Nodes(k + 1) - {NodeAt(0)}, seq(k + 1, i => Entry(NodeAt(i) + CHUNK, BIG - CHUNK)), false)
  {
    assert Popped(ListSim(k)).stk == seq(k + 1, i => Entry(NodeAt(i) + CHUNK, BIG - CHUNK));
  }

  lemma NextNode(k: nat)
    ensures NodeAt(k + 1) !in Nodes(k + 1) && Nodes(k + 2) - {NodeAt(0)} == Nodes(k + 1) - {NodeAt(0)} + {NodeAt(k + 1)}
  {
  }

  lemma ListVisit(n: nat, k: nat)
    requires GC_MARK_STACK_DISCARDS <= n && k < n
    ensures var w, p := ListWorld(n), Popped(ListSim(k));
      && |p.stk| == k + 1
      && var v := Visit(w, n, p, WordAt(w, NodeAt(k))); if k + 1 < n then v == ListSim(k + 1) else v.over
  {
    var w := ListWorld(n);
    ListPopped(k);
    NextNode(k);
    ListTarget(n, k, NodeAt(k));
    ListBlocks(n, k + 1);
    VisitNode(w, n, Popped(ListSim(k)), WordAt(w, NodeAt(k)), NodeAt(k + 1));
  }

  lemma VisitNode(w: World, cap: nat, s: Sim, x: int, o: int)
    requires |s.stk| <= cap && GC_MARK_STACK_DISCARDS <= cap && ObjOf(w, x) == o && o in w.descr && o !in s.marked
    ensures Visit(w, cap, s, x) == Push(cap, s.(marked := s.marked + {o}), Range(w, o))
  {
  }

  lemma ListTop(n: nat, k: nat)
    requires GC_MARK_STACK_DISCARDS <= n && k < n && Ok(ListWorld(n), n, ListSim(k)) == true
    ensures var s1 := Top(ListWorld(n), n, ListSim(k)); if k + 1 < n then s1 == ListSim(k + 1) else s1.over
  {
    var w, s := ListWorld(n), ListSim(k);
    var e, p := Entry(NodeAt(k), BIG), Popped(s);
    assert s.stk[|s.stk| - 1] == e;
    PoppedOk(w, n, s);
    ListVisit(n, k);
    ListScan(n, k, p);
  }

  lemma ListScan(n: nat, k: nat, p: Sim)
    requires GC_MARK_STACK_DISCARDS <= n && k < n && Ok(ListWorld(n), n, p) == true
    ensures var w := ListWorld(n);
      Scan(w, n, p, NodeAt(k), LastWord(w, Entry(NodeAt(k), BIG))) == Visit(w, n, p, WordAt(w, NodeAt(k)))
  {
    var w, last := ListWorld(n), LastWord(ListWorld(n), Entry(NodeAt(k), BIG));
    var v := Visit(w, n, p, WordAt(w, NodeAt(k)));
    VisitStep(w, n, p, WordAt(w, NodeAt(k)));
    ListRest(n, k);
    ScanNothing(w, n, v, NodeAt(k) + 8, last, NodeAt(k) + 8);
  }

  /** Behind its first word an object of the list holds no pointers, as far as it is scanned in one go. */
  lemma ListRest(n: nat, k: nat)
    requires k <= n
    ensures forall q {:trigger Target(ListWorld(n), q)} |
              NodeAt(k) + 8 <= q <= LastWord(ListWorld(n), Entry(NodeAt(k), BIG)) :: Target(ListWorld(n), q) == NONE
  {
    forall q {:trigger Target(ListWorld(n), q)} | NodeAt(k) + 8 <= q <= LastWord(ListWorld(n), Entry(NodeAt(k), BIG))
      ensures Target(ListWorld(n), q) == NONE
    {
      ListTarget(n, k, q);
    }
  }

  lemma {:induction false} ListDrain(n: nat, k: nat)
    requires GC_MARK_STACK_DISCARDS <= n && k < n && Ok(ListWorld(n), n, ListSim(k)) == true
    ensures Drain(ListWorld(n), n, ListSim(k)).over
    decreases n - k
  {
    ListTop(n, k);
    OneRound(ListWorld(n), n, ListSim(k));
    if k + 1 < n {
      ListDrain(n, k + 1);
    }
  }

  /** A round that overflows the stack is not undone. */
  lemma OneRound(w: World, cap: nat, s: Sim)
    requires Ok(w, cap, s) == true && s.stk != []
    ensures Ok(w, cap, Top(w, cap, s)) == true && Drain(w, cap, s) == Drain(w, cap, Top(w, cap, s))
    ensures Top(w, cap, s).over ==> Drain(w, cap, s).over
  {
    TopStep(w, cap, s);
    DrainStep(w, cap, Top(w, cap, s));
  }

  lemma {:induction false} HeadNotReached(n: nat, x: int, d: nat)
    requires ReachIn(ListWorld(n), {} + Succ(ListWorld(n), NodeAt(0), Normal), x, d)
    ensures x != NodeAt(0)
    decreases d
  {
    var w := ListWorld(n);
    if d == 0 {
      if x in Succ(w, NodeAt(0), Normal) {
        NotToHead(n, NodeAt(0), x);
      }
    } else {
      var q :| ReachIn(w, {} + Succ(w, NodeAt(0), Normal), q, d - 1) && Edge(w, q, x);
      NotToHead(n, q, x);
    }
  }

  lemma NotToHead(n: nat, a: int, b: int)
    requires Edge(ListWorld(n), a, b)
    ensures b != NodeAt(0)
  {
    var w := ListWorld(n);
    var i := a / 4096 - 1;
    var p :| Candidate(w, Range(w, a), p) && Target(w, p) == b;
    ListTarget(n, i, p);
  }

  /** The bound of OverflowNeeds cannot be improved: for every size of the stack there is a heap, with nothing marked
      and no roots, and an object in it, not reachable from itself, from which marking overflows with exactly as many
      objects ahead as the stack has places. */
  lemma BoundIsTight(n: nat) returns (w: World, o: int)
    requires GC_MARK_STACK_DISCARDS <= n
    ensures Good(w) && Closed(w, {}) && o in w.descr && o == NodeAt(0)
    ensures Overflows(w, n, {}, o, Normal) && |Ahead(w, {}, o, Normal)| == n && o !in Ahead(w, {}, o, Normal)
  {
    w, o := ListWorld(n), NodeAt(0);
    ListGood(n);
    ListClosed(n);
    ListBlocks(n, 0);
    ListOverflows(n);
    OverflowNeeds(w, n, {}, o, Normal);
    ListAhead(n);
  }

  lemma ListOverflows(n: nat)
    requires GC_MARK_STACK_DISCARDS <= n && Good(ListWorld(n)) == true
    ensures NodeAt(0) in ListWorld(n).descr && Ok(ListWorld(n), n, Sim({}, [], false)) == true
    ensures Overflows(ListWorld(n), n, {}, NodeAt(0), Normal)
  {
    var w, o := ListWorld(n), NodeAt(0);
    ListBlocks(n, 0);
    ListBegins(n);
    BeginStep(w, n, {}, o, Normal);
    ListDrain(n, 0);
  }

  lemma ListBegins(n: nat)
    requires GC_MARK_STACK_DISCARDS <= n
    ensures NodeAt(0) in ListWorld(n).descr && Begin(ListWorld(n), n, Sim({}, [], false), NodeAt(0), Normal) == ListSim(0)
  {
    ListBlocks(n, 0);
    assert Nodes(1) == Nodes(0) + {NodeAt(0)};
    assert Nodes(1) - {NodeAt(0)} == {};
    assert [] + [Entry(NodeAt(0), BIG)] == [Entry(NodeAt(0), BIG)];
    assert Range(ListWorld(n), NodeAt(0)) == Entry(NodeAt(0), BIG);
  }

  lemma ListAhead(n: nat)
    requires NodeAt(0) in ListWorld(n).descr
    ensures var a := Ahead(ListWorld(n), {}, NodeAt(0), Normal); |a| <= n && NodeAt(0) !in a
  {
    var w, o := ListWorld(n), NodeAt(0);
    var a, b := Ahead(w, {}, o, Normal), Nodes(n + 1) - {o};
    forall x | x in a ensures x in b {
      var d: nat :| ReachIn(w, {} + Succ(w, o, Normal), x, d);
      HeadNotReached(n, x, d);
    }
    assert b == a + (b - a);
    assert Nodes(n + 1) == b + {o};
  }
}
