/** The table of address ranges that are not scanned as roots (mark_rts.c). */
module Exclusions {
  const MAX_EXCLUSIONS := 512

  /** The addresses from lo up to but not including hi. */
  datatype Range = Range(lo: int, hi: int)

  predicate In(r: Range, x: int) {
    r.lo <= x < r.hi
  }

  predicate Overlap(a: Range, b: Range) {
    a.lo < b.hi && b.lo < a.hi
  }

  /** Ascending, non-empty and disjoint. */
  ghost predicate Ascending(s: seq<Range>) {
    && (forall i | 0 <= i < |s| :: s[i].lo < s[i].hi)
    && (forall i, j | 0 <= i < j < |s| :: s[i].hi <= s[j].lo)
  }

  ghost predicate Covered(s: seq<Range>, x: int) {
    exists i :: 0 <= i < |s| && In(s[i], x)
  }

  /** Where the source aborts. */
  datatype Outcome = Inserted | Overlapping | TooMany

  class ExclusionTable {
    const table: array<Range>
    var entries: nat

    constructor ()
      ensures Valid() && Contents() == [] && fresh(table)
    {
      table := new Range[MAX_EXCLUSIONS](_ => Range(0, 0));
      entries := 0;
    }

    predicate Bounded()
      reads this
    {
      table.Length == MAX_EXCLUSIONS && entries <= MAX_EXCLUSIONS
    }

    ghost function Contents(): seq<Range>
      requires Bounded()
      reads this, table
    {
      table[..entries]
    }

    ghost predicate Valid()
      reads this, table
    {
      Bounded() && Ascending(Contents())
    }

    /** GC_next_exclusion: the place of the first range that ends after start, or -1. */
    method NextExclusion(start: int) returns (n: int)
      requires Valid() && entries > 0
      ensures n == -1 ==> forall i | 0 <= i < entries :: table[i].hi <= start
      ensures n != -1 ==> 0 <= n < entries && start < table[n].hi && forall i | 0 <= i < n :: table[i].hi <= start
    {
      var low, high := 0, entries - 1;
      while high > low
        invariant 0 <= low <= high < entries
        invariant forall i | 0 <= i < low :: table[i].hi <= start
        invariant high == entries - 1 || start < table[high].hi
      {
        var mid := (low + high) / 2;
        if table[mid].hi <= start {
          forall i | 0 <= i <= mid ensures table[i].hi <= start {
            assert i < mid ==> Contents()[i].hi <= Contents()[mid].lo;
          }
          low := mid + 1;
        } else {
          high := mid;
        }
      }
      if table[low].hi <= start {
        return -1;
      }
      return low;
    }

    /** GC_exclude_static_roots_inner.  The range is added, possibly by extending an old one backwards, unless it
        overlaps an old range or there is no room. */
    method Exclude(start: int, finish: int) returns (outcome: Outcome)
      requires Valid() && start < finish
      modifies this`entries, table
      ensures Valid()
      ensures outcome == Overlapping <==>
        exists i :: 0 <= i < |old(Contents())| && Overlap(old(Contents())[i], Range(start, finish))
      ensures outcome == TooMany ==> old(entries) == MAX_EXCLUSIONS
      ensures outcome != Inserted ==> Contents() == old(Contents())
      ensures outcome == Inserted ==>
        forall x :: Covered(Contents(), x) <==> Covered(old(Contents()), x) || start <= x < finish
    {
      ghost var s := Contents();
      assert forall i | 0 <= i < |s| :: s[i] == table[i];
      var next := -1;
      if entries != 0 {
        next := NextExclusion(start);
      }
      var nextIndex := entries;
      if next != -1 {
        assert s[next] == table[next];
        if table[next].lo < finish {
          assert Overlap(s[next], Range(start, finish));
          return Overlapping;
        }
        NoOverlap(s, next, start, finish);
        if table[next].lo == finish {
          ExtendCovers(s, next, start);
          table[next] := Range(start, table[next].hi);
          assert Contents() == s[next := Range(start, s[next].hi)];
          return Inserted;
        }
        nextIndex := next;
      } else {
        assert forall i | 0 <= i < |s| :: s[i].hi <= start;
      }
      if entries == MAX_EXCLUSIONS {
        return TooMany;
      }
      InsertCovers(s, nextIndex, Range(start, finish));
      Insert(nextIndex, Range(start, finish));
      return Inserted;
    }

    /** Make room at place n. */
    method Shift(n: nat)
      requires Bounded() && n <= entries < MAX_EXCLUSIONS
      modifies table
      ensures forall k | 0 <= k < n :: table[k] == old(table[k])
      ensures forall k | n <= k < entries :: table[k + 1] == old(table[k])
    {
      var i := entries;
      while i > n
        invariant n <= i <= entries
        invariant forall k | 0 <= k < i :: table[k] == old(table[k])
        invariant forall k | i <= k < entries :: table[k + 1] == old(table[k])
      {
        table[i] := table[i - 1];
        i := i - 1;
      }
    }

    method Insert(n: nat, r: Range)
      requires Bounded() && n <= entries < MAX_EXCLUSIONS
      modifies this`entries, table
      ensures Bounded() && entries == old(entries) + 1
      ensures Contents() == old(Contents())[..n] + [r] + old(Contents())[n..]
    {
      Shift(n);
      table[n] := r;
      entries := entries + 1;
    }

    /** GC_push_conditional_with_exclusions: the ranges handed on to be scanned. */
    method PushWithExclusions(bottom0: int, top: int) returns (pushed: seq<Range>)
      requires Valid() && entries > 0
      ensures Ascending(pushed)
      ensures forall x :: Covered(pushed, x) <==> bottom0 <= x < top && !Covered(Contents(), x)
    {
      var bottom := bottom0;
      pushed := [];
      ghost var s := Contents();
      while bottom < top
        invariant bottom0 <= bottom
        invariant Ascending(pushed) && (pushed == [] || pushed[|pushed| - 1].hi <= bottom)
        invariant forall x :: Covered(pushed, x) <==> bottom0 <= x < bottom && x < top && !Covered(s, x)
        decreases top - bottom
      {
        var next := NextExclusion(bottom);
        if next == -1 || table[next].lo >= top {
          NoneHere(s, next, bottom, top);
          PushCovers(pushed, Range(bottom, top));
          pushed := pushed + [Range(bottom, top)];
          return;
        }
        NoneHere(s, next, bottom, table[next].lo);
        assert s[next] == table[next];
        if table[next].lo > bottom {
          PushCovers(pushed, Range(bottom, table[next].lo));
          pushed := pushed + [Range(bottom, table[next].lo)];
        }
        bottom := table[next].hi;
      }
    }
  }

  /** A range that starts after all ranges before place n end, and ends before range n starts, overlaps none. */
  lemma NoOverlap(s: seq<Range>, n: nat, start: int, finish: int)
    requires Ascending(s) && n < |s| && finish <= s[n].lo && forall i | 0 <= i < n :: s[i].hi <= start
    ensures forall i | 0 <= i < |s| :: !Overlap(s[i], Range(start, finish))
  {
  }

  lemma ExtendCovers(s: seq<Range>, n: nat, start: int)
    requires Ascending(s) && n < |s| && start < s[n].lo && forall i | 0 <= i < n :: s[i].hi <= start
    ensures var s1 := s[n := Range(start, s[n].hi)];
      Ascending(s1) && forall x :: Covered(s1, x) <==> Covered(s, x) || start <= x < s[n].lo
  {
    var s1 := s[n := Range(start, s[n].hi)];
    forall x ensures Covered(s1, x) <==> Covered(s, x) || start <= x < s[n].lo {
      if Covered(s, x) {
        var i :| 0 <= i < |s| && In(s[i], x);
        assert In(s1[i], x);
      }
      if start <= x < s[n].lo {
        assert In(s1[n], x);
      }
      if Covered(s1, x) {
        var i :| 0 <= i < |s1| && In(s1[i], x);
        assert In(s[i], x) || start <= x < s[n].lo;
      }
    }
  }

  lemma InsertCovers(s: seq<Range>, n: nat, r: Range)
    requires Ascending(s) && n <= |s| && r.lo < r.hi
    requires forall i | 0 <= i < n :: s[i].hi <= r.lo
    requires n < |s| ==> r.hi <= s[n].lo
    ensures var s1 := s[..n] + [r] + s[n..];
      Ascending(s1) && forall x :: Covered(s1, x) <==> Covered(s, x) || In(r, x)
  {
    var s1 := s[..n] + [r] + s[n..];
    InsertAscends(s, n, r);
    forall x ensures Covered(s1, x) <==> Covered(s, x) || In(r, x) {
      CoveredByInsert(s, n, r, x);
    }
  }

  lemma InsertAscends(s: seq<Range>, n: nat, r: Range)
    requires Ascending(s) && n <= |s| && r.lo < r.hi
    requires (forall i | 0 <= i < n :: s[i].hi <= r.lo) && (n < |s| ==> r.hi <= s[n].lo)
    ensures Ascending(s[..n] + [r] + s[n..])
  {
    forall i | n < i < |s| ensures r.hi <= s[i].lo {
      assert s[n].hi <= s[i].lo && s[n].lo < s[n].hi;
    }
  }

  lemma CoveredByInsert(s: seq<Range>, n: nat, r: Range, x: int)
    requires n <= |s|
    ensures Covered(s[..n] + [r] + s[n..], x) <==> Covered(s, x) || In(r, x)
  {
    var s1 := s[..n] + [r] + s[n..];
    if Covered(s, x) {
      var i :| 0 <= i < |s| && In(s[i], x);
      var k := if i < n then i else i + 1;
      assert s1[k] == s[i];
    }
    assert s1[n] == r;
    if Covered(s1, x) {
      var i :| 0 <= i < |s1| && In(s1[i], x);
      if i != n {
        var k := if i < n then i else i - 1;
        assert s1[i] == s[k];
      }
    }
  }

  lemma PushCovers(s: seq<Range>, r: Range)
    requires Ascending(s) && r.lo < r.hi && (s == [] || s[|s| - 1].hi <= r.lo)
    ensures Ascending(s + [r]) && forall x :: Covered(s + [r], x) <==> Covered(s, x) || In(r, x)
  {
    assert s[..|s|] + [r] + s[|s|..] == s + [r];
    InsertCovers(s, |s|, r);
  }

  /** Between bottom and the start of the first range that ends after it nothing is excluded. */
  lemma NoneHere(s: seq<Range>, n: int, bottom: int, end: int)
    requires Ascending(s) && -1 <= n < |s|
    requires n == -1 ==> forall i | 0 <= i < |s| :: s[i].hi <= bottom
    requires n != -1 ==> end <= s[n].lo && forall i | 0 <= i < n :: s[i].hi <= bottom
    ensures forall x | bottom <= x < end :: !Covered(s, x)
  {
  }
}
