/** The chained hash tables of finalize.c, which grow, and the tables of disappearing links. */
module HashTables {
  const WORD_LIMIT := 0x1_0000_0000_0000_0000

  type Address = a: int | 0 <= a < WORD_LIMIT witness 0

  /** GC_HIDE_POINTER: the bitwise complement of a 64-bit address. */
  function Hide(p: Address): Address {
    WORD_LIMIT - 1 - p
  }

  function Pow2(n: nat): (r: int)
    ensures r >= 1
  {
    if n == 0 then 1 else 2 * Pow2(n - 1)
  }

  /** Bitwise exclusive or. */
  function Xor(a: nat, b: nat): nat {
    if a == 0 && b == 0 then 0 else (a % 2 + b % 2) % 2 + 2 * Xor(a / 2, b / 2)
  }

  /** HASH2 and HASH3, for a table of size 2 to the power of logSize. */
  function Hash(addr: Address, logSize: nat): (i: int)
    ensures 0 <= i < Pow2(logSize)
  {
    Xor(addr / 8, addr / 8 / Pow2(logSize)) % Pow2(logSize)
  }

  /** An entry of a chain: the hidden key and what is kept with it. */
  datatype Link<V> = Link(hidden: Address, val: V)

  function Key<V>(e: Link<V>): Address {
    Hide(e.hidden)
  }

  /** The chains h hold m: every key is in the chain for its hash value, and only once. */
  ghost predicate Holds<V>(h: seq<seq<Link<V>>>, lg: nat, m: map<Address, V>) {
    && |h| == Pow2(lg)
    && (forall i, j {:trigger EntryOk(h, lg, m, i, j)} | 0 <= i < |h| && 0 <= j < |h[i]| :: EntryOk(h, lg, m, i, j))
    && (forall k {:trigger Present(h, k)} | k in m :: Present(h, k))
  }

  ghost predicate EntryOk<V>(h: seq<seq<Link<V>>>, lg: nat, m: map<Address, V>, i: int, j: int)
    requires 0 <= i < |h| && 0 <= j < |h[i]|
  {
    var k := Key(h[i][j]);
    && Hash(k, lg) == i
    && k in m && m[k] == h[i][j].val
    && OnlyAt(h[i], j)
  }

  /** The key at place j of chain c occurs nowhere else in it. */
  ghost predicate OnlyAt<V>(c: seq<Link<V>>, j: int)
    requires 0 <= j < |c|
  {
    forall j2 | 0 <= j2 < |c| && j2 != j :: c[j2].hidden != c[j].hidden
  }

  ghost predicate Present<V>(h: seq<seq<Link<V>>>, k: Address) {
    exists i, j :: 0 <= i < |h| && 0 <= j < |h[i]| && Key(h[i][j]) == k
  }

  lemma PresentWhere<V>(h: seq<seq<Link<V>>>, lg: nat, m: map<Address, V>, k: Address) returns (j: int)
    requires Holds(h, lg, m) && k in m
    ensures 0 <= j < |h[Hash(k, lg)]| && Key(h[Hash(k, lg)][j]) == k
    ensures h[Hash(k, lg)][j] == Link(Hide(k), m[k])
  {
    assert Present(h, k);
    var i, j0 :| 0 <= i < |h| && 0 <= j0 < |h[i]| && Key(h[i][j0]) == k;
    assert EntryOk(h, lg, m, i, j0);
    j := j0;
  }

  lemma Absent<V>(h: seq<seq<Link<V>>>, lg: nat, m: map<Address, V>, k: Address)
    requires Holds(h, lg, m) && forall x | 0 <= x < |h[Hash(k, lg)]| :: h[Hash(k, lg)][x].hidden != Hide(k)
    ensures k !in m
  {
    if k in m {
      var x := PresentWhere(h, lg, m, k);
    }
  }

  /** Pushing a new key on its chain. */
  lemma HoldsPush<V>(h: seq<seq<Link<V>>>, lg: nat, m: map<Address, V>, k: Address, v: V)
    requires Holds(h, lg, m) && k !in m
    ensures var i := Hash(k, lg);
      Holds(h[i := [Link(Hide(k), v)] + h[i]], lg, m[k := v])
  {
    var i := Hash(k, lg);
    var h1: seq<seq<Link<V>>> := h[i := [Link(Hide(k), v)] + h[i]];
    var m1: map<Address, V> := m[k := v];
    forall a, b {:trigger EntryOk(h1, lg, m1, a, b)} | 0 <= a < |h1| && 0 <= b < |h1[a]| ensures EntryOk(h1, lg, m1, a, b) {
      if a != i {
        assert h[a][b] == h1[a][b] && EntryOk(h, lg, m, a, b);
      } else if b > 0 {
        assert h[i][b - 1] == h1[i][b] && EntryOk(h, lg, m, i, b - 1);
        forall c | 0 <= c < |h1[i]| && c != b ensures h1[i][c].hidden != h1[i][b].hidden {
          assert c > 0 ==> h1[i][c] == h[i][c - 1];
        }
      } else {
        forall c | 0 <= c < |h1[i]| && c != b ensures h1[i][c].hidden != h1[i][b].hidden {
          assert h1[i][c] == h[i][c - 1] && EntryOk(h, lg, m, i, c - 1);
        }
      }
    }
    forall x {:trigger Present(h1, x)} | x in m1 ensures Present(h1, x) {
      if x == k {
        assert Key(h1[i][0]) == k;
      } else {
        var j := PresentWhere(h, lg, m, x);
        var a := Hash(x, lg);
        assert h1[a][if a == i then j + 1 else j] == h[a][j];
      }
    }
  }

  /** Removing the entry at place j of chain i. */
  lemma HoldsRemove<V>(h: seq<seq<Link<V>>>, lg: nat, m: map<Address, V>, i: int, j: int)
    requires Holds(h, lg, m) && 0 <= i < |h| && 0 <= j < |h[i]|
    ensures EntryOk(h, lg, m, i, j)
    ensures Holds(h[i := h[i][..j] + h[i][j + 1..]], lg, m - {Key(h[i][j])})
  {
    assert EntryOk(h, lg, m, i, j);
    var k := Key(h[i][j]);
    var h1: seq<seq<Link<V>>> := h[i := h[i][..j] + h[i][j + 1..]];
    var m1: map<Address, V> := m - {k};
    forall a, b {:trigger EntryOk(h1, lg, m1, a, b)} | 0 <= a < |h1| && 0 <= b < |h1[a]| ensures EntryOk(h1, lg, m1, a, b) {
      var b0 := if a == i && b >= j then b + 1 else b;
      assert h1[a][b] == h[a][b0] && EntryOk(h, lg, m, a, b0);
      forall c | 0 <= c < |h1[a]| && c != b ensures h1[a][c].hidden != h1[a][b].hidden {
        assert h1[a][c] == h[a][if a == i && c >= j then c + 1 else c];
      }
      assert a == i ==> h[i][b0].hidden != h[i][j].hidden;
    }
    forall x {:trigger Present(h1, x)} | x in m1 ensures Present(h1, x) {
      var b := PresentWhere(h, lg, m, x);
      var a := Hash(x, lg);
      assert h1[a][if a == i && b > j then b - 1 else b] == h[a][b];
    }
  }

  /** Changing what is kept with the entry at place j of chain i. */
  lemma HoldsUpdate<V>(h: seq<seq<Link<V>>>, lg: nat, m: map<Address, V>, i: int, j: int, v: V)
    requires Holds(h, lg, m) && 0 <= i < |h| && 0 <= j < |h[i]|
    ensures EntryOk(h, lg, m, i, j)
    ensures Holds(h[i := h[i][j := Link(h[i][j].hidden, v)]], lg, m[Key(h[i][j]) := v])
  {
    assert EntryOk(h, lg, m, i, j);
    var k := Key(h[i][j]);
    var h1: seq<seq<Link<V>>> := h[i := h[i][j := Link(h[i][j].hidden, v)]];
    var m1: map<Address, V> := m[k := v];
    forall a, b {:trigger EntryOk(h1, lg, m1, a, b)} | 0 <= a < |h1| && 0 <= b < |h1[a]| ensures EntryOk(h1, lg, m1, a, b) {
      assert h1[a][b].hidden == h[a][b].hidden && EntryOk(h, lg, m, a, b);
      forall c | 0 <= c < |h1[a]| && c != b ensures h1[a][c].hidden != h1[a][b].hidden {
        assert h1[a][c].hidden == h[a][c].hidden;
      }
    }
    forall x {:trigger Present(h1, x)} | x in m1 ensures Present(h1, x) {
      var b := PresentWhere(h, lg, m, x);
      var a := Hash(x, lg);
      assert h1[a][b].hidden == h[a][b].hidden;
    }
  }

  /** Key k is in a chain before i, or at a place before t of chain i. */
  ghost predicate Passed<V>(h: seq<seq<Link<V>>>, lg: nat, k: Address, i: int, t: int) {
    Hash(k, lg) < i || (Hash(k, lg) == i && 0 <= i < |h| && exists j :: 0 <= j < t && j < |h[i]| && Key(h[i][j]) == k)
  }

  /** Walking on by one entry passes exactly its key. */
  lemma PassedStep<V>(h: seq<seq<Link<V>>>, lg: nat, m: map<Address, V>, i: int, t: int, k: Address)
    requires Holds(h, lg, m) && 0 <= i < |h| && 0 <= t < |h[i]|
    ensures Passed(h, lg, k, i, t + 1) <==> Passed(h, lg, k, i, t) || k == Key(h[i][t])
    ensures !Passed(h, lg, Key(h[i][t]), i, t)
  {
    assert EntryOk(h, lg, m, i, t);
  }

  /** The end of a chain is the start of the next. */
  lemma PassedChain<V>(h: seq<seq<Link<V>>>, lg: nat, m: map<Address, V>, i: int, k: Address)
    requires Holds(h, lg, m) && 0 <= i < |h| && k in m
    ensures Passed(h, lg, k, i, |h[i]|) <==> Passed(h, lg, k, i + 1, 0)
  {
    if Hash(k, lg) == i {
      var j := PresentWhere(h, lg, m, k);
    }
  }

  class HashTable<V(==)> {
    /** The chains; unused while logSize is -1. */
    var head: array<seq<Link<V>>>
    var logSize: int
    var entries: nat
    ghost var m: map<Address, V>

    ghost predicate Valid()
      reads this, head
    {
      && logSize >= -1
      && entries == |m|
      && if logSize == -1 then m == map[] else Full() == true
    }

    ghost predicate Full()
      reads this, head
    {
      logSize >= 0 && head.Length == Pow2(logSize) && Holds(head[..], logSize, m)
    }

    constructor ()
      ensures Valid() && logSize == -1 && m == map[] && fresh(head)
    {
      head := new seq<Link<V>>[0];
      logSize, entries, m := -1, 0, map[];
    }

    /** The inner loop of GC_grow_table: move the chain c, the i-th of the old table, to the new one. */
    static method MoveChain(newHead: array<seq<Link<V>>>, newLog: nat, c: seq<Link<V>>, i: int,
                            ghost h: seq<seq<Link<V>>>, ghost lg: nat, ghost m: map<Address, V>,
                            ghost d0: map<Address, V>)
      returns (ghost d: map<Address, V>)
      requires newHead.Length == Pow2(newLog) && Holds(newHead[..], newLog, d0)
      requires Holds(h, lg, m) && 0 <= i < |h| && c == h[i] && Moved(h, lg, m, d0, i, 0)
      modifies newHead
      ensures Holds(newHead[..], newLog, d) && Moved(h, lg, m, d, i + 1, 0)
    {
      var p := c;
      d := d0;
      ghost var t := 0;
      while p != []
        invariant 0 <= t <= |c| && p == c[t..]
        invariant Holds(newHead[..], newLog, d) == true
        invariant Moved(h, lg, m, d, i, t)
        decreases |p|
      {
        var e := p[0];
        var newHash := Hash(Key(e), newLog);
        assert EntryOk(h, lg, m, i, t);
        forall k ensures Passed(h, lg, k, i, t + 1) <==> Passed(h, lg, k, i, t) || k == Key(h[i][t]) {
          PassedStep(h, lg, m, i, t, k);
        }
        PassedStep(h, lg, m, i, t, Key(e));
        HoldsPush(newHead[..], newLog, d, Key(e), e.val);
        ghost var before := newHead[..];
        newHead[newHash] := [e] + newHead[newHash];
        assert newHead[..] == before[newHash := [Link(Hide(Key(e)), e.val)] + before[newHash]];
        d := d[Key(e) := e.val];
        p := p[1..];
        t := t + 1;
      }
      forall k | k in m ensures Passed(h, lg, k, i, |h[i]|) <==> Passed(h, lg, k, i + 1, 0) {
        PassedChain(h, lg, m, i, k);
      }
    }

    /** d is the part of m whose keys have been passed. */
    static ghost predicate Moved(h: seq<seq<Link<V>>>, lg: nat, m: map<Address, V>, d: map<Address, V>,
                                 i: int, t: int)
    {
      && (forall k {:trigger k in d} :: k in d <==> k in m && Passed(h, lg, k, i, t))
      && (forall k {:trigger d[k]} | k in d :: k in m && d[k] == m[k])
    }

    /** GC_grow_table: twice as many chains; if there is no memory, an existing table stays as it is. */
    method Grow()
      requires Valid()
      modifies this`head, this`logSize
      ensures Valid() && logSize >= 0
      ensures (logSize == old(logSize) + 1 && fresh(head)) || (logSize == old(logSize) && head == old(head))
    {
      var ok: bool := *;
      if !ok && logSize >= 0 {
        return;
      }
      var newLog := logSize + 1;
      var newHead := new seq<Link<V>>[Pow2(newLog)](_ => []);
      EmptyHolds(newHead[..], newLog);
      ghost var d: map<Address, V> := map[];
      if logSize >= 0 {
        d := MoveAll(newHead, newLog);
      }
      assert d == m;
      head, logSize := newHead, newLog;
    }

    lemma EmptyHolds(h: seq<seq<Link<V>>>, newLog: nat)
      requires |h| == Pow2(newLog) && forall i | 0 <= i < |h| :: h[i] == []
      ensures Holds(h, newLog, map[]) == true
    {
    }

    /** The outer loop of GC_grow_table. */
    method MoveAll(newHead: array<seq<Link<V>>>, newLog: nat) returns (ghost d: map<Address, V>)
      requires Full() && newHead != head
      requires newHead.Length == Pow2(newLog) && Holds(newHead[..], newLog, map[]) == true
      modifies newHead
      ensures Holds(newHead[..], newLog, d) == true && d == m
    {
      var i := 0;
      d := map[];
      ghost var h, lg := head[..], logSize;
      while i < head.Length
        invariant 0 <= i <= head.Length && head[..] == h
        invariant Holds(newHead[..], newLog, d) == true && Moved(h, lg, m, d, i, 0) == true
      {
        d := MoveChain(newHead, newLog, head[i], i, h, lg, m, d);
        i := i + 1;
      }
      forall k | k in m ensures Passed(h, lg, k, |h|, 0) {
        assert Hash(k, lg) < |h|;
      }
    }

    /** The place of key k in its chain, or -1. */
    method Find(k: Address) returns (i: int, j: int)
      requires Valid() && logSize >= 0
      ensures i == Hash(k, logSize) && 0 <= i < head.Length
      ensures j == -1 <==> k !in m
      ensures j != -1 ==> 0 <= j < |head[i]| && Key(head[i][j]) == k && head[i][j] == Link(Hide(k), m[k])
    {
      i := Hash(k, logSize);
      j := 0;
      while j < |head[i]|
        invariant 0 <= j <= |head[i]| && forall x | 0 <= x < j :: head[i][x].hidden != Hide(k)
      {
        if head[i][j].hidden == Hide(k) {
          assert EntryOk(head[..], logSize, m, i, j);
          return;
        }
        j := j + 1;
      }
      assert head[..][i] == head[i];
      Absent(head[..], logSize, m, k);
      j := -1;
    }

    /** Unlink the entry at place j of chain i. */
    method RemoveAt(i: int, j: int)
      requires Valid() && logSize >= 0 && 0 <= i < head.Length && 0 <= j < |head[i]|
      modifies this`entries, this`m, head
      ensures Valid() && Key(old(head[i][j])) in old(m) && m == old(m) - {Key(old(head[i][j]))}
      ensures head[..] == old(head[..])[i := old(head[i])[..j] + old(head[i])[j + 1..]]
    {
      HoldsRemove(head[..], logSize, m, i, j);
      ghost var h := head[..];
      head[i] := head[i][..j] + head[i][j + 1..];
      assert head[..] == h[i := h[i][..j] + h[i][j + 1..]];
      entries := entries - 1;
      m := m - {Key(h[i][j])};
    }

    /** Push an entry for the new key k on chain i. */
    method PushAt(i: int, k: Address, v: V)
      requires Valid() && logSize >= 0 && i == Hash(k, logSize) && 0 <= i < head.Length && k !in m
      modifies this`entries, this`m, head
      ensures Valid() && m == old(m)[k := v]
    {
      HoldsPush(head[..], logSize, m, k, v);
      PushRaw(i, k, v);
      m := m[k := v];
    }

    /** Push an entry on chain i, whatever its key; m is left to the caller. */
    method PushRaw(i: int, k: Address, v: V)
      requires 0 <= i < head.Length
      modifies this`entries, head
      ensures head[..] == old(head[..])[i := [Link(Hide(k), v)] + old(head[..])[i]] && entries == old(entries) + 1
    {
      ghost var h := head[..];
      head[i] := [Link(Hide(k), v)] + head[i];
      assert head[..] == h[i := [Link(Hide(k), v)] + h[i]];
      entries := entries + 1;
    }

    /** Replace what is kept with the entry at place j of chain i. */
    method SetAt(i: int, j: int, v: V)
      requires Valid() && logSize >= 0 && 0 <= i < head.Length && 0 <= j < |head[i]|
      modifies this`m, head
      ensures Valid() && Key(old(head[i][j])) in old(m) && m == old(m)[Key(old(head[i][j])) := v]
    {
      HoldsUpdate(head[..], logSize, m, i, j, v);
      ghost var h: seq<seq<Link<V>>> := head[..];
      var c: seq<Link<V>> := head[i];
      head[i] := c[j := Link(c[j].hidden, v)];
      assert head[..] == h[i := h[i][j := Link(h[i][j].hidden, v)]];
      m := m[Key(h[i][j]) := v];
    }

    /** The test with which registration starts. */
    method GrowIfFull()
      requires Valid()
      modifies this`head, this`logSize
      ensures Valid() && logSize >= 0 && (head == old(head) || fresh(head))
    {
      if logSize == -1 || entries > Pow2(logSize) {
        Grow();
      }
    }

    /** Enter k, or replace what is kept with it. */
    method Register(k: Address, v: V) returns (duplicate: bool)
      requires Valid()
      modifies this, head
      ensures Valid() && logSize >= 0 && m == old(m)[k := v] && (head == old(head) || fresh(head))
      ensures duplicate <==> k in old(m)
    {
      GrowIfFull();
      var i, j := Find(k);
      if j != -1 {
        SetAt(i, j, v);
        return true;
      }
      PushAt(i, k, v);
      return false;
    }

    /** Remove k, if it is there. */
    method Unregister(k: Address) returns (found: bool)
      requires Valid() && logSize >= 0
      modifies this`entries, this`m, head
      ensures Valid() && m == old(m) - {k}
      ensures found <==> k in old(m)
    {
      var i, j := Find(k);
      if j == -1 {
        return false;
      }
      RemoveAt(i, j);
      return true;
    }

    /** The key at place j of chain i is new to those passed before. */
    lemma OnPlace(i: int, j: int, k: Address)
      requires Valid() && logSize >= 0 && 0 <= i < head.Length && 0 <= j < |head[i]|
      ensures Key(head[i][j]) in m && m[Key(head[i][j])] == head[i][j].val
      ensures !Passed(head[..], logSize, Key(head[i][j]), i, j)
      ensures Passed(head[..], logSize, k, i, j + 1)
           <==> Passed(head[..], logSize, k, i, j) || k == Key(head[i][j])
    {
      assert EntryOk(head[..], logSize, m, i, j);
      PassedStep(head[..], logSize, m, i, j, k);
    }

    /** Removing the entry at place j of chain i does not change which of the other keys were passed. */
    lemma PassedAfterRemove(h: seq<seq<Link<V>>>, i: int, j: int, k: Address)
      requires logSize >= 0 && 0 <= i < |h| && 0 <= j < |h[i]| && k != Key(h[i][j])
      ensures Passed(h[i := h[i][..j] + h[i][j + 1..]], logSize, k, i, j) <==> Passed(h, logSize, k, i, j)
    {
      var h1: seq<seq<Link<V>>> := h[i := h[i][..j] + h[i][j + 1..]];
      forall x | 0 <= x < j ensures h1[i][x] == h[i][x] {
      }
    }

    /** The loop over all entries that deletes those that are dead (ITERATE_DL_HASHTBL_BEGIN, DELETE_DL_HASHTBL_ENTRY). */
    method DeleteDead(dead: (Address, V) -> bool)
      requires Valid()
      modifies this`entries, this`m, head
      ensures Valid()
      ensures forall k :: k in m <==> k in old(m) && !dead(k, old(m)[k])
      ensures forall k | k in m :: m[k] == old(m)[k]
    {
      if logSize == -1 {
        return;
      }
      var i := 0;
      while i < head.Length
        invariant 0 <= i <= head.Length && Valid() && logSize >= 0
        invariant Filtered(dead, old(m), i, 0) == true
      {
        FilterChain(dead, i, old(m));
        i := i + 1;
      }
      forall k | k in m ensures Passed(head[..], logSize, k, head.Length, 0) {
        assert Hash(k, logSize) < |head[..]|;
      }
    }

    /** So far only dead entries were deleted, and all of them up to place j of chain i. */
    ghost predicate Filtered(dead: (Address, V) -> bool, m0: map<Address, V>, i: int, j: int)
      requires logSize >= 0
      reads this, head
    {
      && (forall k {:trigger k in m} :: k in m ==> k in m0 && m[k] == m0[k])
      && (forall k {:trigger k in m0} :: k in m0 && k !in m ==> dead(k, m0[k]))
      && (forall k {:trigger Passed(head[..], logSize, k, i, j)} ::
            k in m && Passed(head[..], logSize, k, i, j) ==> !dead(k, m[k]))
    }

    method FilterChain(dead: (Address, V) -> bool, i: int, ghost m0: map<Address, V>)
      requires Valid() && logSize >= 0 && 0 <= i < head.Length && Filtered(dead, m0, i, 0) == true
      modifies this`entries, this`m, head
      ensures Valid() && Filtered(dead, m0, i + 1, 0) == true
    {
      var j := 0;
      while j < |head[i]|
        invariant 0 <= j <= |head[i]| && Valid()
        invariant Filtered(dead, m0, i, j) == true
        decreases |head[i]| - j
      {
        var e := head[i][j];
        if dead(Key(e), e.val) {
          DropEntry(dead, i, j, m0);
        } else {
          FilterStep(dead, i, j, m0);
          j := j + 1;
        }
      }
      forall k {:trigger Passed(head[..], logSize, k, i + 1, 0)} |
        k in m && Passed(head[..], logSize, k, i + 1, 0) ensures !dead(k, m[k])
      {
        PassedChain(head[..], logSize, m, i, k);
      }
    }

    lemma FilterStep(dead: (Address, V) -> bool, i: int, j: int, m0: map<Address, V>)
      requires Valid() && logSize >= 0 && 0 <= i < head.Length && 0 <= j < |head[i]|
      requires Filtered(dead, m0, i, j) == true && !dead(Key(head[i][j]), head[i][j].val)
      ensures Filtered(dead, m0, i, j + 1) == true
    {
      forall k {:trigger Passed(head[..], logSize, k, i, j + 1)} |
        k in m && Passed(head[..], logSize, k, i, j + 1) ensures !dead(k, m[k])
      {
        OnPlace(i, j, k);
      }
    }

    method DropEntry(dead: (Address, V) -> bool, i: int, j: int, ghost m0: map<Address, V>)
      requires Valid() && logSize >= 0 && 0 <= i < head.Length && 0 <= j < |head[i]|
      requires Filtered(dead, m0, i, j) == true && dead(Key(head[i][j]), head[i][j].val)
      modifies this`entries, this`m, head
      ensures Valid() && Filtered(dead, m0, i, j) == true
      ensures |head[i]| == |old(head[i])| - 1
    {
      ghost var h := head[..];
      OnPlace(i, j, Key(head[i][j]));
      RemoveAt(i, j);
      forall k | k in m ensures Passed(head[..], logSize, k, i, j) <==> Passed(h, logSize, k, i, j) {
        PassedAfterRemove(h, i, j, k);
      }
    }

    /** GC_move_disappearing_link_inner: k becomes newK, unless k is not there or newK is. */
    method Move(k: Address, newK: Address) returns (r: MoveResult)
      requires Valid() && logSize >= 0
      modifies this`entries, this`m, head
      ensures Valid()
      ensures r == NotFound <==> k !in old(m)
      ensures r == Duplicate <==> k in old(m) && k != newK && newK in old(m)
      ensures m == if r == Success then (old(m) - {k})[newK := old(m)[k]] else old(m)
    {
      var i, j := Find(k);
      if j == -1 {
        return NotFound;
      }
      if k == newK {
        return Success;
      }
      var i2, j2 := Find(newK);
      if j2 != -1 {
        return Duplicate;
      }
      var v := head[i][j].val;
      RemoveAt(i, j);
      PushAt(i2, newK, v);
      return Success;
    }
  }

  datatype MoveResult = Success | Duplicate | NotFound
}
