/** GC_finalize and the finalizer registry (finalize.c), on top of the marker and the hash tables. */
module Finalize {
  import opened MarkGraph
  import opened HashTables
  import opened FinalizeOrder
  import opened FinalizeQueue
  import opened MarkSteps
  import Marker

  /** The links of m to marked objects. */
  ghost function LinksToMarked(m: map<Address, Address>, marks: set<int>): map<Address, Address> {
    map k | k in m && m[k] in marks :: m[k]
  }

  /** GC_dl_hashtbl and GC_ll_hashtbl: from the address of a link to the object it refers to. */
  class LinkTables {
    const dl: HashTable<Address>
    const ll: HashTable<Address>
    /** GC_base: the object a link lies in, or 0. */
    const baseOf: Address -> int

    ghost predicate Valid()
      reads dl, dl.head, ll, ll.head
    {
      dl.Valid() && ll.Valid() && dl != ll && dl.head != ll.head
    }

    constructor (baseOf: Address -> int)
      ensures Valid() && dl.m == map[] && ll.m == map[] && this.baseOf == baseOf
    {
      this.baseOf := baseOf;
      dl := new HashTable<Address>();
      ll := new HashTable<Address>();
    }

    /** The links of m that do not lie in unmarked objects. */
    ghost function NotDangling(m: map<Address, Address>, marks: set<int>): map<Address, Address> {
      map k | k in m && (baseOf(k) == 0 || baseOf(k) in marks) :: m[k]
    }

    /** GC_make_disappearing_links_disappear: forget the links to unmarked objects. */
    method ClearLinks(table: HashTable<Address>, marks: set<int>)
      requires table.Valid() == true
      modifies table`entries, table`m, table.head
      ensures table.Valid() == true && table.m == LinksToMarked(old(table.m), marks)
    {
      table.DeleteDead((link: Address, obj: Address) => obj !in marks);
    }

    /** GC_remove_dangling_disappearing_links: forget the links that lie in unmarked objects. */
    method RemoveDangling(table: HashTable<Address>, marks: set<int>)
      requires table.Valid() == true
      modifies table`entries, table`m, table.head
      ensures table.Valid() == true && table.m == NotDangling(old(table.m), marks)
    {
      var base := baseOf;
      table.DeleteDead((link: Address, obj: Address) => base(link) != 0 && base(link) !in marks);
    }

    /** Short links to objects not marked at first (in marks) are gone, long ones to those not marked in the end (in
        marks1), and both kinds of links in objects not marked in the end. */
    ghost predicate Settled(dl0: map<Address, Address>, ll0: map<Address, Address>, marks: set<int>, marks1: set<int>)
      reads dl, ll
    {
      && dl.m == NotDangling(LinksToMarked(dl0, marks), marks1)
      && ll.m == NotDangling(LinksToMarked(ll0, marks1), marks1)
    }

    /** What GC_finalize does with the links at first. */
    method Early(marks: set<int>)
      requires Valid() == true
      modifies dl`entries, dl`m, dl.head
      ensures Valid() == true && dl.m == LinksToMarked(old(dl.m), marks)
    {
      ClearLinks(dl, marks);
    }

    /** What GC_finalize does with the links at last. */
    method Late(marks: set<int>)
      requires Valid() == true
      modifies dl`entries, dl`m, dl.head, ll`entries, ll`m, ll.head
      ensures Valid() == true
      ensures dl.m == NotDangling(old(dl.m), marks)
      ensures ll.m == NotDangling(LinksToMarked(old(ll.m), marks), marks)
    {
      RemoveDangling(dl, marks);
      ClearLinks(ll, marks);
      RemoveDangling(ll, marks);
    }
  }

  class Finalizer {
    const marker: Marker.Marker
    /** GC_fo_head. */
    const fo: HashTable<Rec>
    const links: LinkTables
    /** GC_finalize_now, first entry first. */
    var queue: seq<Ready>
    /** The finalizers called so far. */
    var calls: seq<Call>
    var nextId: nat
    /** The records whose finalizers were called, and those that were dropped by unregistering. */
    ghost var called: seq<nat>
    ghost var dropped: set<nat>
    /** GC_java_finalization and need_unreachable_finalization. */
    var javaFinalization: bool
    var needUnreachable: bool

    constructor (marker: Marker.Marker, links: LinkTables)
      ensures this.marker == marker && this.links == links && fresh(fo) && fo.Valid() && fo.m == map[] && queue == [] && calls == []
      ensures Accounts() && fresh(fo.head) && fo.logSize == -1
    {
      this.marker, this.links := marker, links;
      fo := new HashTable<Rec>();
      queue, calls, nextId, javaFinalization, needUnreachable := [], [], 0, false, false;
      called, dropped := [], {};
    }

    ghost predicate Valid()
      reads this, fo, fo.head, marker, marker.stack
    {
      && fo.Valid() && marker.Valid()
      && Objects(marker.w, fo.m)
    }

    /** The records are all accounted for. */
    ghost predicate Accounts()
      reads this, fo
    {
      Accounted(fo.m, queue, called, dropped, nextId) == true
    }

    /** The registered objects are all accounted for up to place j of chain i: marked is what is reachable from those
        passed, and from the objects of over, whose marking overflowed.  The stack had cap places at the start. */
    ghost predicate Marking(m0: set<int>, cap: nat, over: set<int>, i: int, j: int)
      requires fo.logSize >= 0
      reads this, fo, fo.head, marker, marker.stack
    {
      Dealt(m0, cap, over, PassedKeys(i, j))
    }

    /** The registered objects of ks are all accounted for. */
    ghost predicate Dealt(m0: set<int>, cap: nat, over: set<int>, ks: set<Address>)
      reads this, fo, fo.head, marker, marker.stack
    {
      Valid() && marker.Finished() && Reckoned(marker.w, m0, cap, fo.m, over, ks, marker.marked, marker.stack.Length)
    }

    ghost function PassedKeys(i: int, j: int): set<Address>
      requires fo.logSize >= 0
      reads fo, fo.head
    {
      set k | k in fo.m && Passed(fo.head[..], fo.logSize, k, i, j)
    }

    /** The first phase of GC_finalize: mark what is reachable through one or more pointers from registered objects
        that are not marked. */
    method MarkFromRegistered() returns (ghost over: set<int>)
      requires Valid() == true && marker.Finished() == true && fo.logSize >= 0
      modifies marker, marker.stack
      ensures Dealt(old(marker.marked), old(marker.stack.Length), over, fo.m.Keys) == true
      ensures marker.stack == old(marker.stack) || fresh(marker.stack)
    {
      ghost var m0, cap := marker.marked, marker.stack.Length;
      MarkingStarts();
      over := MarkFromChains(m0, cap);
      MarkingEnds(m0, cap, over);
    }

    /** The loop over the chains. */
    method MarkFromChains(ghost m0: set<int>, ghost cap: nat) returns (ghost over: set<int>)
      requires fo.logSize >= 0 && Marking(m0, cap, {}, 0, 0) == true
      modifies marker, marker.stack
      ensures Marking(m0, cap, over, fo.head.Length, 0) == true
      ensures marker.stack == old(marker.stack) || fresh(marker.stack)
    {
      over := {};
      var i := 0;
      while i < fo.head.Length
        invariant 0 <= i <= fo.head.Length
        invariant Marking(m0, cap, over, i, 0) == true
        invariant marker.stack == old(marker.stack) || fresh(marker.stack)
      {
        over := MarkFromChain(i, m0, cap, over);
        i := i + 1;
      }
    }

    lemma MarkingStarts()
      requires Valid() == true && marker.Finished() == true && fo.logSize >= 0
      ensures Marking(marker.marked, marker.stack.Length, {}, 0, 0) == true
    {
      NonePassed();
      ReckonNothing(marker.w, marker.marked, marker.stack.Length, fo.m);
    }

    lemma MarkingEnds(m0: set<int>, cap: nat, over: set<int>)
      requires fo.logSize >= 0 && Marking(m0, cap, over, fo.head.Length, 0) == true
      ensures Dealt(m0, cap, over, fo.m.Keys) == true
    {
      forall k | k in fo.m ensures Passed(fo.head[..], fo.logSize, k, fo.head.Length, 0) {
        assert Hash(k, fo.logSize) < |fo.head[..]|;
      }
      assert PassedKeys(fo.head.Length, 0) == fo.m.Keys;
    }

    /** The loop over one chain. */
    method MarkFromChain(i: int, ghost m0: set<int>, ghost cap: nat, ghost over0: set<int>) returns (ghost over: set<int>)
      requires fo.logSize >= 0 && 0 <= i < fo.head.Length && Marking(m0, cap, over0, i, 0) == true
      modifies marker, marker.stack
      ensures Marking(m0, cap, over, i + 1, 0) == true
      ensures marker.stack == old(marker.stack) || fresh(marker.stack)
    {
      over := over0;
      var j := 0;
      while j < |fo.head[i]|
        invariant 0 <= j <= |fo.head[i]|
        invariant Marking(m0, cap, over, i, j) == true
        invariant marker.stack == old(marker.stack) || fresh(marker.stack)
      {
        over := MarkFromEntry(i, j, m0, cap, over);
        j := j + 1;
      }
      ChainEnds(i);
    }

    lemma ChainEnds(i: int)
      requires fo.Valid() && fo.logSize >= 0 && 0 <= i < fo.head.Length
      ensures PassedKeys(i, |fo.head[i]|) == PassedKeys(i + 1, 0)
    {
      forall k | k in fo.m
        ensures Passed(fo.head[..], fo.logSize, k, i, |fo.head[i]|)
           <==> Passed(fo.head[..], fo.logSize, k, i + 1, 0)
      {
        PassedChain(fo.head[..], fo.logSize, fo.m, i, k);
      }
    }

    lemma EntryPassed(i: int, j: int)
      requires fo.Valid() && fo.logSize >= 0 && 0 <= i < fo.head.Length && 0 <= j < |fo.head[i]|
      ensures var k := Key(fo.head[i][j]);
        k in fo.m && fo.m[k] == fo.head[i][j].val && k !in PassedKeys(i, j) && PassedKeys(i, j + 1) == PassedKeys(i, j) + {k}
    {
      fo.OnPlace(i, j, Key(fo.head[i][j]));
      assert Key(fo.head[i][j]) !in PassedKeys(i, j);
      forall k | k in fo.m
        ensures Passed(fo.head[..], fo.logSize, k, i, j + 1)
           <==> Passed(fo.head[..], fo.logSize, k, i, j) || k == Key(fo.head[i][j])
      {
        fo.OnPlace(i, j, k);
      }
    }

    /** The body of the loop: the entry at place j of chain i. */
    method MarkFromEntry(i: int, j: int, ghost m0: set<int>, ghost cap: nat, ghost over0: set<int>) returns (ghost over: set<int>)
      requires fo.logSize >= 0 && 0 <= i < fo.head.Length && 0 <= j < |fo.head[i]|
      requires Marking(m0, cap, over0, i, j) == true
      modifies marker, marker.stack
      ensures Marking(m0, cap, over, i, j + 1) == true
      ensures marker.stack == old(marker.stack) || fresh(marker.stack)
    {
      EntryPassed(i, j);
      var e := fo.head[i][j];
      var realPtr := Key(e);
      ghost var ks := PassedKeys(i, j);
      over := over0;
      if realPtr !in marker.marked {
        over := MarkFromObject(realPtr, e.val.mp, ks, m0, cap, over0);
      } else {
        ReckonMarked(marker.w, m0, cap, fo.m, over0, ks, marker.marked, marker.stack.Length, realPtr);
      }
    }

    /** GC_MARK_FO for the unmarked registered object k, when the keys of ks were dealt with. */
    method MarkFromObject(k: Address, mp: MarkProc, ghost ks: set<Address>, ghost m0: set<int>, ghost cap: nat,
                          ghost over0: set<int>)
      returns (ghost over: set<int>)
      requires Dealt(m0, cap, over0, ks) == true && k in fo.m && fo.m[k].mp == mp && k !in marker.marked && k !in ks
      modifies marker, marker.stack
      ensures Dealt(m0, cap, over, ks + {k}) == true
      ensures marker.stack == old(marker.stack) || fresh(marker.stack)
    {
      ghost var reg, m, len := fo.m, marker.marked, marker.stack.Length;
      var overflow := MarkOne(k, mp);
      over := if overflow then over0 + {k} else over0;
      ReckonObject(marker.w, m0, cap, reg, over0, ks, m, len, k, overflow, marker.marked, marker.stack.Length);
    }

    /** GC_MARK_FO, seen from the registry. */
    method MarkOne(k: Address, mp: MarkProc) returns (overflow: bool)
      requires Valid() == true && marker.Finished() == true && k in marker.w.descr
      modifies marker, marker.stack
      ensures Valid() == true && marker.Finished() == true
      ensures MarkedFrom(marker.w, marker.marked, old(marker.marked) + if overflow then {k as int} else Succ(marker.w, k, mp)) == true
      ensures overflow <==> Overflows(marker.w, old(marker.stack.Length), old(marker.marked), k, mp)
      ensures old(marker.marked) <= marker.marked <= marker.w.descr.Keys && Closed(marker.w, marker.marked) == true
      ensures old(marker.stack.Length) <= marker.stack.Length
      ensures marker.stack == old(marker.stack) || fresh(marker.stack)
    {
      ghost var m := marker.marked;
      overflow := marker.MarkFo(k, mp);
      FoMarked(m, k, mp, overflow);
    }

    lemma FoMarked(m: set<int>, k: Address, mp: MarkProc, overflow: bool)
      requires marker.w.align > 0 && marker.Exact(marker.FoSource(m, k, mp, overflow)) == true
      ensures MarkedFrom(marker.w, marker.marked, m + if overflow then {k as int} else Succ(marker.w, k, mp)) == true
    {
      forall x {:trigger MarkedIff(marker.w, marker.marked, marker.FoSource(m, k, mp, overflow), x)}
        ensures MarkedIff(marker.w, marker.marked, marker.FoSource(m, k, mp, overflow), x)
      {
        assert x in marker.marked <==> Reachable(marker.w, marker.FoSource(m, k, mp, overflow), x);
      }
    }

    /** The state of the second phase at place j of chain i. */
    ghost predicate Picking(reg0: Registry, mk: set<int>, q0: seq<Ready>, added: seq<Ready>, i: int, j: int)
      requires fo.logSize >= 0
      reads this, fo, fo.head, marker, marker.stack
    {
      && Valid() && Picked(reg0, mk, fo.m, added) == true && queue == added + q0
      && marker.marked == mk + (if javaFinalization then {} else Bases(added))
      && PassedMarked(mk, i, j) == true
    }

    /** The entries passed and still there belong to marked objects. */
    ghost predicate PassedMarked(mk: set<int>, i: int, j: int)
      requires fo.logSize >= 0
      reads fo, fo.head
    {
      PassedKeys(i, j) <= mk
    }

    /** The second phase of GC_finalize: move the entries of unmarked objects to the queue. */
    method EnqueueUnmarked() returns (ghost added: seq<Ready>)
      requires Valid() == true && fo.logSize >= 0 && Accounts() == true
      modifies this`queue, marker`marked, fo`entries, fo`m, fo.head
      ensures Valid() == true && Accounts() == true && queue == added + old(queue)
      ensures Picked(old(fo.m), old(marker.marked), fo.m, added) == true
      ensures fo.m.Keys <= old(marker.marked)
      ensures marker.marked == old(marker.marked) + (if javaFinalization then {} else Bases(added))
    {
      ghost var reg0, mk, q0 := fo.m, marker.marked, queue;
      added := [];
      var i := 0;
      NonePassed();
      while i < fo.head.Length
        invariant 0 <= i <= fo.head.Length && fo.logSize >= 0 && fo.head == old(fo.head)
        invariant Picking(reg0, mk, q0, added, i, 0) == true && Accounts() == true
      {
        added := EnqueueChain(i, reg0, mk, q0, added);
        i := i + 1;
      }
      AllPassed();
    }

    lemma NonePassed()
      requires fo.Valid() && fo.logSize >= 0
      ensures PassedKeys(0, 0) == {}
    {
      forall k | k in fo.m ensures !Passed(fo.head[..], fo.logSize, k, 0, 0) {
        assert 0 <= Hash(k, fo.logSize);
      }
    }

    lemma AllPassed()
      requires fo.Valid() && fo.logSize >= 0
      ensures PassedKeys(fo.head.Length, 0) == fo.m.Keys
    {
      forall k | k in fo.m ensures Passed(fo.head[..], fo.logSize, k, fo.head.Length, 0) {
        assert Hash(k, fo.logSize) < |fo.head[..]|;
      }
    }

    method EnqueueChain(i: int, ghost reg0: Registry, ghost mk: set<int>, ghost q0: seq<Ready>, ghost added0: seq<Ready>)
      returns (ghost added: seq<Ready>)
      requires fo.logSize >= 0 && 0 <= i < fo.head.Length && Picking(reg0, mk, q0, added0, i, 0) == true
      requires Accounts() == true
      modifies this`queue, marker`marked, fo`entries, fo`m, fo.head
      ensures Picking(reg0, mk, q0, added, i + 1, 0) == true && Accounts() == true
    {
      added := added0;
      var j := 0;
      while j < |fo.head[i]|
        invariant 0 <= j <= |fo.head[i]| && fo.head == old(fo.head)
        invariant Picking(reg0, mk, q0, added, i, j) == true && Accounts() == true
        decreases |fo.head[i]| - j
      {
        var realPtr := Key(fo.head[i][j]);
        EntryPassed(i, j);
        if realPtr !in marker.marked {
          added := EnqueueEntry(i, j, reg0, mk, q0, added);
        } else {
          StillMarked(reg0, mk, q0, added, i, j);
          j := j + 1;
        }
      }
      ChainEnds(i);
    }

    lemma StillMarked(reg0: Registry, mk: set<int>, q0: seq<Ready>, added: seq<Ready>, i: int, j: int)
      requires fo.logSize >= 0 && 0 <= i < fo.head.Length && 0 <= j < |fo.head[i]|
      requires Picking(reg0, mk, q0, added, i, j) == true && Key(fo.head[i][j]) in marker.marked
      ensures Picking(reg0, mk, q0, added, i, j + 1) == true
    {
      EntryPassed(i, j);
      forall r | r in added ensures r.base !in fo.m {
        assert PickedReady(reg0, mk, fo.m, added, r);
      }
    }

    /** Take the entry at place j of chain i out of the table and put it in front of the queue. */
    method MoveToQueue(i: int, j: int) returns (r: Ready)
      requires fo.logSize >= 0 && 0 <= i < fo.head.Length && 0 <= j < |fo.head[i]| && Valid() == true
      requires Accounts() == true
      modifies this`queue, marker`marked, fo`entries, fo`m, fo.head
      ensures Valid() == true && Accounts() == true && r == old(ReadyAt(i, j))
      ensures fo.m == old(fo.m) - {r.base} && queue == [r] + old(queue)
      ensures fo.head[..] == old(WithoutAt(i, j))
      ensures marker.marked == old(marker.marked) + (if javaFinalization then {} else {r.base})
    {
      EntryPassed(i, j);
      r := Ready(Key(fo.head[i][j]), fo.head[i][j].val);
      AccountQueue(fo.m, queue, called, dropped, nextId, r.base);
      TakeOut(i, j);
      Enlist(r);
    }

    function ReadyAt(i: int, j: int): Ready
      requires 0 <= i < fo.head.Length && 0 <= j < |fo.head[i]|
      reads fo, fo.head
    {
      Ready(Key(fo.head[i][j]), fo.head[i][j].val)
    }

    /** The chains without the entry at place j of chain i. */
    function WithoutAt(i: int, j: int): seq<seq<Link<Rec>>>
      requires 0 <= i < fo.head.Length && 0 <= j < |fo.head[i]|
      reads fo, fo.head
    {
      fo.head[..][i := fo.head[i][..j] + fo.head[i][j + 1..]]
    }

    /** Put the record in front of the queue, and mark its object unless Java finalization is on. */
    method Enlist(r: Ready)
      requires Valid() == true && r.base in marker.w.descr
      requires Accounted(fo.m, [r] + queue, called, dropped, nextId) == true
      modifies this`queue, marker`marked
      ensures Valid() == true && Accounts() == true && queue == [r] + old(queue)
      ensures marker.marked == old(marker.marked) + (if javaFinalization then {} else {r.base})
    {
      if !javaFinalization {
        marker.marked := marker.marked + {r.base};
      }
      queue := [r] + queue;
    }

    /** Take the entry at place j of chain i out of the table. */
    method TakeOut(i: int, j: int)
      requires fo.logSize >= 0 && 0 <= i < fo.head.Length && 0 <= j < |fo.head[i]| && Valid() == true
      modifies fo`entries, fo`m, fo.head
      ensures Valid() == true && fo.m == old(fo.m) - {old(ReadyAt(i, j)).base}
      ensures fo.head[..] == old(WithoutAt(i, j))
    {
      fo.RemoveAt(i, j);
    }

    /** The same for an unmarked object, as a step of the second phase. */
    method EnqueueEntry(i: int, j: int, ghost reg0: Registry, ghost mk: set<int>, ghost q0: seq<Ready>,
                        ghost added0: seq<Ready>)
      returns (ghost added: seq<Ready>)
      requires fo.logSize >= 0 && 0 <= i < fo.head.Length && 0 <= j < |fo.head[i]|
      requires Picking(reg0, mk, q0, added0, i, j) == true && Key(fo.head[i][j]) !in marker.marked
      requires Accounts() == true
      modifies this`queue, marker`marked, fo`entries, fo`m, fo.head
      ensures Accounts() == true
      ensures Picking(reg0, mk, q0, added, i, j) == true && |fo.head[i]| == |old(fo.head[i])| - 1
    {
      ghost var h := fo.head[..];
      EntryPicked(i, j, reg0, mk, q0, added0);
      var r := MoveToQueue(i, j);
      added := [r] + added0;
      PickingNext(h, i, j, reg0, mk, q0, added0, r);
    }

    /** What is known before the entry of an unmarked object is taken out. */
    lemma EntryPicked(i: int, j: int, reg0: Registry, mk: set<int>, q0: seq<Ready>, added: seq<Ready>)
      requires fo.logSize >= 0 && 0 <= i < fo.head.Length && 0 <= j < |fo.head[i]|
      requires Picking(reg0, mk, q0, added, i, j) == true && Key(fo.head[i][j]) !in marker.marked
      ensures Valid() == true && queue == added + q0
      ensures var k := Key(fo.head[i][j]);
        && k in fo.m && fo.m[k] == fo.head[i][j].val
        && Picked(reg0, mk, fo.m - {k}, [Ready(k, fo.head[i][j].val)] + added) == true
      ensures marker.marked == mk + (if javaFinalization then {} else Bases(added))
      ensures forall k | k in fo.m && Passed(fo.head[..], fo.logSize, k, i, j) :: k in mk
    {
      EntryPassed(i, j);
      PickOne(reg0, mk, fo.m, added, Key(fo.head[i][j]));
      forall k | k in fo.m && Passed(fo.head[..], fo.logSize, k, i, j) ensures k in mk {
        assert k in PassedKeys(i, j);
      }
    }

    /** What is known after the entry r was taken out; h are the chains before. */
    lemma PickingNext(h: seq<seq<Link<Rec>>>, i: int, j: int, reg0: Registry, mk: set<int>, q0: seq<Ready>,
                      added: seq<Ready>, r: Ready)
      requires Valid() == true && fo.logSize >= 0 && 0 <= i < |h| && 0 <= j < |h[i]|
      requires Key(h[i][j]) == r.base && r.base !in fo.m
      requires fo.head[..] == h[i := h[i][..j] + h[i][j + 1..]]
      requires Picked(reg0, mk, fo.m, [r] + added) == true && queue == [r] + (added + q0)
      requires marker.marked == mk + (if javaFinalization then {} else Bases(added)) + (if javaFinalization then {} else {r.base})
      requires forall k | k in fo.m && Passed(h, fo.logSize, k, i, j) :: k in mk
      ensures Picking(reg0, mk, q0, [r] + added, i, j) == true && |fo.head[i]| == |h[i]| - 1
    {
      BasesOne(r, added);
      FewerPassed(h, i, j, mk);
    }

    lemma BasesOne(r: Ready, q: seq<Ready>)
      ensures Bases([r] + q) == Bases(q) + {r.base}
    {
      assert ([r] + q)[0] == r;
      forall x | x in q ensures x in [r] + q {
      }
    }

    /** After the entry at place j of chain i was removed, no other keys count as passed. */
    lemma FewerPassed(h: seq<seq<Link<Rec>>>, i: int, j: int, mk: set<int>)
      requires fo.Valid() && fo.logSize >= 0 && 0 <= i < |h| && 0 <= j < |h[i]| && Key(h[i][j]) !in fo.m
      requires fo.head[..] == h[i := h[i][..j] + h[i][j + 1..]]
      requires forall k | k in fo.m && Passed(h, fo.logSize, k, i, j) :: k in mk
      ensures PassedMarked(mk, i, j) == true && |fo.head[i]| == |h[i]| - 1
    {
      assert fo.head[i] == fo.head[..][i];
      forall k | k in PassedKeys(i, j) ensures k in mk {
        fo.PassedAfterRemove(h, i, j, k);
      }
    }

    // -------------------------------------------------------------------------- registering and invoking

    /** The table after a registration: the record of base is removed, changed, or new if base is an object. */
    static function AfterRegister(reg: Registry, base: Address, fn: int, cd: int, size: int, mp: MarkProc, id: nat,
                                  isObject: bool): Registry
    {
      if fn == 0 then reg - {base}
      else if base in reg then reg[base := reg[base].(fn := fn, cd := cd, mp := mp)]
      else if isObject then reg[base := Rec(id, fn, cd, size, mp)]
      else reg
    }

    /** GC_register_finalizer_inner: enter, replace or (fn is 0) remove what is registered for base; ofn and ocd are
        what was registered before. */
    method RegisterFinalizer(base: Address, fn: int, cd: int, size: int, mp: MarkProc) returns (ofn: int, ocd: int)
      requires Valid() == true && Accounts() == true
      modifies fo, fo.head, this`nextId, this`dropped
      ensures Valid() == true && Accounts() == true && (fo.head == old(fo.head) || fresh(fo.head))
      ensures (ofn, ocd) == if base in old(fo.m) then (old(fo.m)[base].fn, old(fo.m)[base].cd) else (0, 0)
      ensures fo.m == AfterRegister(old(fo.m), base, fn, cd, size, mp, old(nextId), base in marker.w.descr)
      ensures old(Separate(queue, fo.m)) ==> (Separate(queue, fo.m) <==> !(base in fo.m && QueuedWaiter(base)))
    {
      fo.GrowIfFull();
      var i, j := fo.Find(base);
      ghost var q, reg := queue, fo.m;
      ofn, ocd := 0, 0;
      if j != -1 {
        var r := fo.head[i][j].val;
        ofn, ocd := r.fn, r.cd;
        Reregister(i, j, base, fn, r.(fn := fn, cd := cd, mp := mp));
      } else if fn != 0 && base in marker.w.descr {
        NewRecord(i, base, Rec(nextId, fn, cd, size, mp));
      }
      StillSeparate(q, reg, base, fo.m);
    }

    /** The case that something is registered already. */
    method Reregister(i: int, j: int, base: Address, fn: int, r: Rec)
      requires fo.Valid() == true && Accounts() == true && fo.logSize >= 0 && 0 <= i < fo.head.Length && 0 <= j < |fo.head[i]|
      requires base in fo.m && Key(fo.head[i][j]) == base && fo.head[i][j].val == fo.m[base] && r.id == fo.m[base].id
      modifies fo`entries, fo`m, fo.head, this`dropped
      ensures fo.Valid() == true && Accounts() == true && fo.m == if fn == 0 then old(fo.m) - {base} else old(fo.m)[base := r]
    {
      if fn == 0 {
        DropRecord(i, j, base);
      } else {
        ChangeRecord(i, j, base, r);
      }
    }

    lemma StillSeparate(q: seq<Ready>, reg: Registry, base: Address, reg1: Registry)
      requires q == queue && reg1.Keys - {base} == reg.Keys - {base}
      ensures Separate(q, reg) ==> (Separate(q, reg1) <==> !(base in reg1 && QueuedWaiter(base)))
    {
      if Separate(q, reg) {
        forall a {:trigger q[a]} | 0 <= a < |q| && Awaits(q[a]) ensures q[a].base in reg1 ==> q[a].base == base && QueuedWaiter(base) {
          if q[a].base != base {
            assert q[a].base in reg1.Keys - {base} <==> q[a].base in reg.Keys - {base};
          }
        }
        if base in reg1 && QueuedWaiter(base) {
          var a :| 0 <= a < |q| && Awaits(q[a]) && q[a].base == base;
          assert !Separate(q, reg1);
        }
      }
    }

    method DropRecord(i: int, j: int, base: Address)
      requires fo.Valid() == true && Accounts() == true && fo.logSize >= 0 && 0 <= i < fo.head.Length && 0 <= j < |fo.head[i]|
      requires base in fo.m && Key(fo.head[i][j]) == base && fo.head[i][j].val == fo.m[base]
      modifies fo`entries, fo`m, fo.head, this`dropped
      ensures fo.Valid() == true && Accounts() == true && fo.m == old(fo.m) - {base}
    {
      AccountDrop(fo.m, queue, called, dropped, nextId, base);
      dropped := dropped + {fo.m[base].id};
      fo.RemoveAt(i, j);
    }

    method ChangeRecord(i: int, j: int, base: Address, r: Rec)
      requires fo.Valid() == true && Accounts() == true && fo.logSize >= 0 && 0 <= i < fo.head.Length && 0 <= j < |fo.head[i]|
      requires base in fo.m && Key(fo.head[i][j]) == base && r.id == fo.m[base].id
      modifies fo`m, fo.head
      ensures fo.Valid() == true && Accounts() == true && fo.m == old(fo.m)[base := r]
    {
      AccountUpdate(fo.m, queue, called, dropped, nextId, base, r);
      fo.SetAt(i, j, r);
    }

    method NewRecord(i: int, base: Address, r: Rec)
      requires fo.Valid() == true && Accounts() == true && fo.logSize >= 0 && i == Hash(base, fo.logSize) && 0 <= i < fo.head.Length
      requires base !in fo.m && r.id == nextId
      modifies fo`entries, fo`m, fo.head, this`nextId
      ensures fo.Valid() == true && Accounts() == true && fo.m == old(fo.m)[base := r]
    {
      AccountNew(fo.m, queue, called, dropped, nextId, base, r);
      fo.PushAt(i, base, r);
      nextId := nextId + 1;
    }

    /** A record for the object waits in the queue. */
    ghost predicate QueuedWaiter(base: Address)
      reads this
    {
      exists a {:trigger queue[a]} :: 0 <= a < |queue| && Awaits(queue[a]) && queue[a].base == base
    }

    /** The calls made for the records of q. */
    static function CallsOf(q: seq<Ready>): seq<Call> {
      seq(|q|, a requires 0 <= a < |q| => Call(q[a].rec.fn, q[a].base, q[a].rec.cd))
    }

    /** GC_invoke_finalizers: call the finalizers of all queued records, in order.  The finalizers themselves are not
        modelled; they register nothing. */
    method InvokeFinalizers() returns (count: nat)
      requires Accounts() == true
      modifies this`queue, this`calls, this`called
      ensures Accounts() == true && queue == [] && count == |old(queue)|
      ensures calls == old(calls) + CallsOf(old(queue))
    {
      count := 0;
      while queue != []
        invariant Accounts() == true && count <= |old(queue)| && queue == old(queue)[count..]
        invariant calls == old(calls) + CallsOf(old(queue))[..count]
        decreases |queue|
      {
        var curr := queue[0];
        AccountCall(fo.m, queue, called, dropped, nextId);
        queue := queue[1..];
        called := called + [curr.rec.id];
        calls := calls + [Call(curr.rec.fn, curr.base, curr.rec.cd)];
        count := count + 1;
      }
      assert CallsOf(old(queue))[..count] == CallsOf(old(queue));
    }

    // ------------------------------------------------------------------------------------- Java finalization

    /** Queued objects are objects, and what they point to is marked as far as their mark procedures look. */
    ghost predicate QueueMarked()
      reads this, marker, marker.stack
    {
      marker.Valid() &&
      forall r {:trigger r in queue} | r in queue ::
        r.base in marker.w.descr && (r.base in marker.marked || Succ(marker.w, r.base, r.rec.mp) <= marker.marked)
    }

    /** Marking a single object, all of whose pointers lead to marked objects, keeps the marks closed. */
    lemma AddMarked(m: set<int>, o: int)
      requires Good(marker.w) == true && Closed(marker.w, m) == true && o in marker.w.descr
      requires forall x | Edge(marker.w, o, x) && x != o :: x in m
      ensures Closed(marker.w, m + {o}) == true
    {
      var w, m1 := marker.w, m + {o};
      forall c {:trigger c in m1} | c in m1 && c in w.descr ensures AllResolved(w, m1, [], Range(w, c)) {
        forall p {:trigger Resolved(w, m1, [], p)} | Candidate(w, Range(w, c), p) ensures Resolved(w, m1, [], p) {
          if c == o {
            if Target(w, p) != NONE {
              assert Edge(w, o, Target(w, p));
            }
          } else {
            assert c in m && AllResolved(w, m, [], Range(w, c));
            assert Resolved(w, m, [], p);
          }
        }
      }
      forall p {:trigger RootLoc(w, p)} | RootLoc(w, p) ensures Resolved(w, m1, [], p) {
        assert Resolved(w, m, [], p);
      }
    }

    /** The body of the first loop for Java finalization: keep a queued object that no finalizer marked. */
    method KeepOne(r: Ready)
      requires Valid() == true && marker.Finished() == true && r.base in marker.w.descr
      requires r.base in marker.marked || Succ(marker.w, r.base, r.rec.mp) <= marker.marked
      modifies marker, marker.stack
      ensures Valid() == true && marker.Finished() == true && old(marker.marked) <= marker.marked
      ensures marker.stack == old(marker.stack) || fresh(marker.stack)
      ensures r.rec.mp != WhenUnreachable ==> r.base in marker.marked
    {
      if r.base !in marker.marked {
        if r.rec.mp == NullProc {
          ghost var m0 := marker.marked;
          var overflow := marker.MarkFo(r.base, Normal);
          FoIncludes(m0, r.base, overflow);
        }
        if r.rec.mp != WhenUnreachable {
          SelfOrMarked(r.base, r.rec.mp);
          AddMarked(marker.marked, r.base);
          marker.marked := marker.marked + {r.base};
        }
      }
    }

    lemma FoIncludes(m0: set<int>, o: int, overflow: bool)
      requires Good(marker.w) == true && Closed(marker.w, marker.marked) == true && o in marker.w.descr && m0 <= marker.w.descr.Keys
      requires marker.Exact(marker.FoSource(m0, o, Normal, overflow)) == true
      ensures forall x | x in Succ(marker.w, o, Normal) :: x in marker.marked
    {
      forall x | x in Succ(marker.w, o, Normal) ensures x in marker.marked {
        if overflow {
          ReachRoot(marker.w, marker.FoSource(m0, o, Normal, overflow), o);
          SuccClosed(marker.w, marker.marked, o, Normal, x);
        } else {
          ReachRoot(marker.w, marker.FoSource(m0, o, Normal, overflow), x);
        }
      }
    }

    lemma SelfOrMarked(o: int, mp: MarkProc)
      requires marker.w.align > 0 && o in marker.w.descr && mp != WhenUnreachable
      requires Succ(marker.w, o, if mp == NullProc then Normal else mp) <= marker.marked
      ensures forall x | Edge(marker.w, o, x) && x != o :: x in marker.marked
    {
      forall x | Edge(marker.w, o, x) && x != o ensures x in marker.marked {
        assert x in Succ(marker.w, o, if mp == NullProc then Normal else mp);
      }
    }

    /** The first loop for Java finalization. */
    method KeepQueued()
      requires Valid() == true && marker.Finished() == true && QueueMarked() == true
      modifies marker, marker.stack
      ensures Valid() == true && marker.Finished() == true && old(marker.marked) <= marker.marked
      ensures forall r | r in queue && r.rec.mp != WhenUnreachable :: r.base in marker.marked
      ensures forall r | r in queue :: r.base in marker.w.descr
    {
      var a := 0;
      while a < |queue|
        invariant 0 <= a <= |queue| && Valid() == true && marker.Finished() == true
        invariant QueueMarked() == true && old(marker.marked) <= marker.marked
        invariant marker.stack == old(marker.stack) || fresh(marker.stack)
        invariant forall b | 0 <= b < a && queue[b].rec.mp != WhenUnreachable :: queue[b].base in marker.marked
      {
        ghost var m := marker.marked;
        assert queue[a] in queue;
        KeepOne(queue[a]);
        a := a + 1;
      }
    }

    /** The second loop for Java finalization has come to place a of the queue; it began with q0, m0, h0 and e0. */
    ghost predicate Reviving(q0: seq<Ready>, m0: set<int>, h0: Chains, e0: nat, a: int)
      reads this, fo, fo.head, marker
    {
      && 0 <= a <= |queue| && fo.logSize >= 0 && fo.head.Length == Pow2(fo.logSize)
      && RevivedSoFar(q0, m0, h0, e0, fo.logSize, queue[..a], queue[a..], marker.marked, fo.head[..], fo.entries)
    }

    /** The second loop for Java finalization: records that wait until nothing else refers to their objects go back to
        the table if something does. */
    method ReviveWaiting()
      requires fo.logSize >= 0 && fo.head.Length == Pow2(fo.logSize)
      modifies this`queue, marker`marked, fo`entries, fo.head
      ensures queue == Kept(old(queue), old(marker.marked)) && marker.marked == MarkedAfter(old(queue), old(marker.marked))
      ensures fo.head[..] == PushAll(old(fo.head[..]), fo.logSize, Returned(old(queue), old(marker.marked)))
      ensures fo.entries == old(fo.entries) + |Returned(old(queue), old(marker.marked))|
    {
      ghost var q0, m0, h0, e0 := queue, marker.marked, fo.head[..], fo.entries;
      var a := 0;
      assert queue[..0] == [] && queue[0..] == queue;
      while a < |queue|
        invariant Reviving(q0, m0, h0, e0, a) == true
        decreases |queue| - a
      {
        a := ReviveStep(a, q0, m0, h0, e0);
      }
      assert queue[..a] == queue && queue[a..] == [];
    }

    /** The body of that loop. */
    method ReviveStep(a: int, ghost q0: seq<Ready>, ghost m0: set<int>, ghost h0: Chains, ghost e0: nat) returns (a': int)
      requires Reviving(q0, m0, h0, e0, a) == true && a < |queue|
      modifies this`queue, marker`marked, fo`entries, fo.head
      ensures Reviving(q0, m0, h0, e0, a') == true && |queue| - a' < old(|queue|) - a
    {
      var r := queue[a];
      ghost var kept, rest := queue[..a], queue[a + 1..];
      assert queue[a..] == [r] + rest;
      ReviveOne(q0, m0, h0, e0, fo.logSize, kept, r, rest, marker.marked, fo.head[..], fo.entries);
      if Awaits(r) && r.base in marker.marked {
        a' := a;
        PutBack(a);
        assert queue[..a] == kept && queue[a..] == rest;
      } else {
        if Awaits(r) {
          marker.marked := marker.marked + {r.base};
        }
        a' := a + 1;
        assert queue[..a'] == kept + [r] && queue[a'..] == rest;
      }
    }

    /** Move the record at place a of the queue to the table. */
    method PutBack(a: nat)
      requires a < |queue| && fo.logSize >= 0 && fo.head.Length == Pow2(fo.logSize)
      modifies this`queue, fo`entries, fo.head
      ensures queue == old(queue)[..a] + old(queue)[a + 1..] && fo.entries == old(fo.entries) + 1
      ensures fo.head[..] == PushOne(old(fo.head[..]), fo.logSize, old(queue)[a])
    {
      var r := queue[a];
      queue := queue[..a] + queue[a + 1..];
      var i := Hash(r.base, fo.logSize);
      fo.PushRaw(i, r.base, r.rec);
    }

    /** The chains of the table of finalizers hold a map. */
    ghost predicate HoldsTable()
      reads fo, fo.head
    {
      fo.logSize >= 0 ==> IsTable(fo.head[..], fo.logSize)
    }

    /** The same, with what becomes of the table: it stays one exactly if what returns to it is new there. */
    method ReviveTable()
      requires Valid() == true && Accounts() == true && fo.logSize >= 0
      requires forall r | r in queue :: r.base in marker.w.descr
      modifies this`queue, marker`marked, fo`entries, fo`m, fo.head
      ensures queue == Kept(old(queue), old(marker.marked)) && old(marker.marked) <= marker.marked
      ensures HoldsTable() == true <==> Fresh(Returned(old(queue), old(marker.marked)), old(fo.m)) == true
      ensures Fresh(Returned(old(queue), old(marker.marked)), old(fo.m)) ==>
                Valid() == true && Accounts() == true && fo.m == EnterAll(old(fo.m), Returned(old(queue), old(marker.marked)))
    {
      ghost var q, mk, h, reg := queue, marker.marked, fo.head[..], fo.m;
      ghost var rs := Returned(q, mk);
      ReviveWaiting();
      TableIff(h, fo.logSize, reg, rs);
      MarkedAfterObjects(q, mk);
      if Fresh(rs, reg) {
        fo.m := EnterAll(reg, rs);
        assert [] + q == q && [] + Kept(q, mk) == Kept(q, mk);
        AccountReturned(reg, [], q, mk, called, dropped, nextId);
        EnteredObjects(q, mk, reg);
      }
    }

    lemma {:induction false} MarkedAfterObjects(q: seq<Ready>, m: set<int>)
      requires m <= marker.w.descr.Keys && forall r | r in q :: r.base in marker.w.descr
      ensures m <= MarkedAfter(q, m) <= marker.w.descr.Keys
      decreases |q|
    {
      if q != [] {
        forall r | r in q[1..] ensures r in q {
        }
        assert q[0] in q;
        MarkedAfterObjects(q[1..], if Awaits(q[0]) then m + {q[0].base} else m);
      }
    }

    lemma EnteredObjects(q: seq<Ready>, m: set<int>, reg: Registry)
      requires Objects(marker.w, reg) == true && forall r | r in q :: r.base in marker.w.descr
      ensures Objects(marker.w, EnterAll(reg, Returned(q, m))) == true
    {
      forall k {:trigger k in EnterAll(reg, Returned(q, m))} | k in EnterAll(reg, Returned(q, m)) ensures k in marker.w.descr {
        Entered(reg, Returned(q, m), k);
        if k !in reg {
          var r :| r in Returned(q, m) && r.base == k;
          KeptOrReturned(q, m, r);
        }
      }
    }

    // ------------------------------------------------------------------------------------------- GC_finalize

    /** What the first two phases of GC_finalize do: m1 is what was marked after the first one. */
    ghost predicate Sorted(reg0: Registry, m0: set<int>, q0: seq<Ready>, over: set<int>, m1: set<int>, added: seq<Ready>)
      requires marker.w.align > 0
      reads this, fo, marker
    {
      && m0 <= m1 && over <= reg0.Keys - m0
      && MarkedFrom(marker.w, m1, Source(marker.w, m0, reg0, reg0.Keys, over)) == true
      && Picked(reg0, m1, fo.m, added) == true && fo.m.Keys <= m1
      && queue == added + q0
      && marker.marked == m1 + (if javaFinalization then {} else Bases(added))
    }

    /** For which objects the mark stack, of cap places, overflowed. */
    ghost predicate Blamed(reg0: Registry, m0: set<int>, cap: nat, over: set<int>)
      requires marker.w.align > 0
      reads marker
    {
      Crowded(marker.w, cap, m0, reg0, over) && exists m, len :: Lone(marker.w, cap, m0, reg0, reg0.Keys, over, m, len)
    }

    /** The first two phases of GC_finalize. */
    method SortOut() returns (ghost over: set<int>, ghost m1: set<int>, ghost added: seq<Ready>)
      requires Valid() == true && Accounts() == true && marker.Finished() == true
      modifies marker, marker.stack, this`queue, fo`entries, fo`m, fo.head
      ensures SortedOut(old(fo.m), old(marker.marked), old(marker.stack.Length), old(queue), over, m1, added) == true
      ensures marker.stack == old(marker.stack) || fresh(marker.stack)
    {
      if fo.logSize < 0 {
        over, m1, added := {}, marker.marked, [];
        NothingRegistered();
      } else {
        ghost var m0, cap := marker.marked, marker.stack.Length;
        over := MarkFromRegistered();
        m1 := marker.marked;
        added := EnqueueSorted(m0, cap, over);
      }
    }

    ghost predicate SortedOut(reg0: Registry, m0: set<int>, cap: nat, q0: seq<Ready>, over: set<int>, m1: set<int>,
                              added: seq<Ready>)
      reads this, fo, fo.head, marker, marker.stack
    {
      && Valid() && Accounts() && Closed(marker.w, m1) && (javaFinalization ==> marker.Finished())
      && Sorted(reg0, m0, q0, over, m1, added) && Blamed(reg0, m0, cap, over)
    }

    /** The second phase, with what is known from the first. */
    method EnqueueSorted(ghost m0: set<int>, ghost cap: nat, ghost over: set<int>) returns (ghost added: seq<Ready>)
      requires Accounts() == true && fo.logSize >= 0 && Dealt(m0, cap, over, fo.m.Keys) == true
      modifies this`queue, marker`marked, fo`entries, fo`m, fo.head
      ensures SortedOut(old(fo.m), m0, cap, old(queue), over, old(marker.marked), added) == true
    {
      ghost var reg0, m1 := fo.m, marker.marked;
      BlamedFor(m0, cap, over);
      added := EnqueueUnmarked();
    }

    lemma BlamedFor(m0: set<int>, cap: nat, over: set<int>)
      requires Dealt(m0, cap, over, fo.m.Keys) == true
      ensures Blamed(fo.m, m0, cap, over) == true && over <= fo.m.Keys - m0
      ensures MarkedFrom(marker.w, marker.marked, Source(marker.w, m0, fo.m, fo.m.Keys, over)) == true
    {
      WithheldAll(fo.m, m0, over);
      assert Lone(marker.w, cap, m0, fo.m, fo.m.Keys, over, marker.marked, marker.stack.Length);
    }

    lemma NothingRegistered()
      requires Valid() == true && marker.Finished() == true && fo.logSize < 0
      requires Accounts() == true
      ensures SortedOut(fo.m, marker.marked, marker.stack.Length, queue, {}, marker.marked, []) == true
    {
      var m := marker.marked;
      assert Source(marker.w, m, fo.m, fo.m.Keys, {}) == m;
      ClosedIsReachable(marker.w, m);
      forall x {:trigger MarkedIff(marker.w, m, m, x)} ensures MarkedIff(marker.w, m, m, x) {
        assert x in m <==> Reachable(marker.w, m, x);
      }
      assert Bases([]) == {};
      assert Lone(marker.w, marker.stack.Length, m, fo.m, fo.m.Keys, {}, m, marker.stack.Length);
    }

    /** What queued objects point to is marked, as the loops for Java finalization need it. */
    lemma QueueIsMarked(reg0: Registry, m0: set<int>, q0: seq<Ready>, over: set<int>, m1: set<int>, added: seq<Ready>)
      requires marker.Valid() && Objects(marker.w, reg0) == true && m0 <= marker.w.descr.Keys && over <= marker.w.descr.Keys
      requires Sorted(reg0, m0, q0, over, m1, added) && (forall r | r in q0 :: r.base in m0) && javaFinalization
      ensures QueueMarked() == true
    {
      var src := Source(marker.w, m0, reg0, reg0.Keys, over);
      SourceObjects(marker.w, m0, reg0, reg0.Keys, over);
      forall r {:trigger r in queue} | r in queue
        ensures r.base in marker.w.descr
        ensures r.base in marker.marked || Succ(marker.w, r.base, r.rec.mp) <= marker.marked
      {
        if r in added {
          assert PickedReady(reg0, m1, fo.m, added, r);
          forall x | x in Succ(marker.w, r.base, r.rec.mp) ensures x in m1 {
            assert x in SuccAll(marker.w, reg0, reg0.Keys);
            ReachRoot(marker.w, src, x);
            assert MarkedIff(marker.w, m1, src, x);
          }
        }
      }
    }

    /** Waiting records that were apart at the start still are. */
    lemma QueueIsApart(reg0: Registry, m0: set<int>, q0: seq<Ready>, over: set<int>, m1: set<int>, added: seq<Ready>)
      requires marker.w.align > 0 && Sorted(reg0, m0, q0, over, m1, added) && (forall r | r in q0 :: r.base in m0)
      ensures Separate(q0, reg0) <==> Separate(q0, fo.m) == true
      ensures Separate(q0, reg0) ==> Separate(queue, fo.m) == true
    {
      forall a {:trigger q0[a]} | 0 <= a < |q0| ensures q0[a].base in reg0 <==> q0[a].base in fo.m {
        assert q0[a] in q0;
        StaysRegistered(reg0, m0, q0, over, m1, added, q0[a].base);
      }
      if Separate(q0, reg0) {
        forall a {:trigger queue[a]} | 0 <= a < |queue| && Awaits(queue[a]) ensures queue[a].base !in fo.m {
          if a < |added| {
            assert PickedReady(reg0, m1, fo.m, added, added[a]);
          } else {
            assert queue[a] == q0[a - |added|];
          }
        }
        forall a, b {:trigger queue[a], queue[b]} | 0 <= a < b < |queue| && Awaits(queue[a]) && Awaits(queue[b])
          ensures queue[a].base != queue[b].base
        {
          if a < |added| && |added| <= b {
            assert PickedReady(reg0, m1, fo.m, added, added[a]);
            assert queue[b] == q0[b - |added|] && queue[b] in q0;
          } else if |added| <= a {
            assert queue[a] == q0[a - |added|] && queue[b] == q0[b - |added|];
          }
        }
      }
    }

    lemma StaysRegistered(reg0: Registry, m0: set<int>, q0: seq<Ready>, over: set<int>, m1: set<int>, added: seq<Ready>,
                          k: Address)
      requires marker.w.align > 0 && Sorted(reg0, m0, q0, over, m1, added) && k in m0
      ensures k in reg0 <==> k in fo.m
    {
      assert PickedKey(reg0, fo.m, added, k);
      if k in reg0 {
        assert PickedReady(reg0, m1, fo.m, added, Ready(k, reg0[k]));
      }
    }

    /** The objects of queued records are marked, being reachable from the queue. */
    ghost predicate QueueReached()
      reads this, marker
    {
      forall r | r in queue :: r.base in marker.marked
    }

    /** No waiting record in the queue will be put back into the table, or all of them have objects of their own, which
        are not registered anew. */
    ghost predicate NoClash(q: seq<Ready>, reg: Registry)
      reads this, fo
    {
      javaFinalization && needUnreachable && fo.logSize >= 0 ==> Separate(q, reg)
    }

    /** The part of GC_finalize for Java finalization. */
    method FinalizeJava(ghost reg0: Registry, ghost m0: set<int>, ghost q0: seq<Ready>, ghost over: set<int>,
                        ghost m1: set<int>, ghost added: seq<Ready>)
      requires Valid() == true && Accounts() == true && marker.Finished() == true && javaFinalization
      requires Objects(marker.w, reg0) == true && m0 <= marker.w.descr.Keys && over <= marker.w.descr.Keys
      requires Sorted(reg0, m0, q0, over, m1, added) == true && (forall r | r in q0 :: r.base in m0)
      modifies marker, marker.stack, this`queue, fo`entries, fo`m, fo.head
      ensures HoldsTable() == true <==> NoClash(q0, reg0) == true
      ensures NoClash(q0, reg0) ==> Valid() == true && Accounts() == true && Conserved(added + q0) == true
      ensures Separate(q0, reg0) ==> Separate(queue, fo.m) == true
    {
      QueueIsMarked(reg0, m0, q0, over, m1, added);
      QueueIsApart(reg0, m0, q0, over, m1, added);
      SortedFacts(reg0, m0, q0, over, m1, added);
      KeepQueued();
      FreshIff(added, q0, marker.marked, fo.m);
      ReviveIfNeeded(added, q0);
    }

    /** The second loop, if it is needed.  The queue is that of q0, whose objects are marked, behind added. */
    method ReviveIfNeeded(ghost added: seq<Ready>, ghost q0: seq<Ready>)
      requires Valid() == true && Accounts() == true && queue == added + q0 && javaFinalization
      requires forall r | r in queue :: r.base in marker.w.descr
      requires Fresh(Returned(queue, marker.marked), fo.m) <==> Separate(q0, fo.m)
      requires Separate(q0, fo.m) ==> Separate(queue, fo.m) == true
      modifies this`queue, marker`marked, fo`entries, fo`m, fo.head
      ensures HoldsTable() == true <==> NoClash(q0, old(fo.m))
      ensures NoClash(q0, old(fo.m)) ==> Valid() == true && Accounts() == true && Conserved(old(queue)) == true
      ensures Separate(q0, old(fo.m)) ==> Separate(queue, fo.m) == true
    {
      if needUnreachable && fo.logSize >= 0 {
        RevivedFacts(queue, marker.marked, fo.m);
        ReviveTable();
      } else {
        StillTable();
      }
    }

    lemma StillTable()
      requires Valid() == true
      ensures HoldsTable() == true
    {
    }

    /** What ReviveTable leaves, if nothing clashes. */
    lemma RevivedFacts(q: seq<Ready>, mk: set<int>, reg: Registry)
      ensures Separate(q, reg) ==> Separate(Kept(q, mk), EnterAll(reg, Returned(q, mk))) == true
      ensures Fresh(Returned(q, mk), reg) ==>
                forall r {:trigger r in Kept(q, mk)} | r in q && r !in Kept(q, mk) ::
                  Awaits(r) && r.base in EnterAll(reg, Returned(q, mk)) && EnterAll(reg, Returned(q, mk))[r.base] == r.rec
    {
      if Separate(q, reg) {
        KeptSeparate(q, mk, reg);
      }
      if Fresh(Returned(q, mk), reg) {
        forall r {:trigger r in Kept(q, mk)} | r in q && r !in Kept(q, mk)
          ensures Awaits(r) && r.base in EnterAll(reg, Returned(q, mk)) && EnterAll(reg, Returned(q, mk))[r.base] == r.rec
        {
          KeptOrReturned(q, mk, r);
          Entered(reg, Returned(q, mk), r.base);
        }
      }
    }

    lemma SortedFacts(reg0: Registry, m0: set<int>, q0: seq<Ready>, over: set<int>, m1: set<int>, added: seq<Ready>)
      requires marker.w.align > 0 && Sorted(reg0, m0, q0, over, m1, added) == true && Objects(marker.w, reg0) == true
      ensures over <= marker.w.descr.Keys && queue == added + q0
      ensures m0 <= marker.marked
    {
    }

    /** The records of q are still queued or, if they wait, back in the table. */
    ghost predicate Conserved(q: seq<Ready>)
      reads this, fo
    {
      forall r | r in q :: r in queue || (Awaits(r) && r.base in fo.m && fo.m[r.base] == r.rec)
    }

    /** GC_finalize, but for the disappearing links. */
    method FinalizeObjects() returns (ghost over: set<int>, ghost m1: set<int>, ghost added: seq<Ready>)
      requires Prepared() == true
      modifies marker, marker.stack, this`queue, fo`entries, fo`m, fo.head
      ensures Finalized(old(fo.m), old(marker.marked), old(marker.stack.Length), old(queue), over, m1, added) == true
    {
      ghost var reg0, m0, q0 := fo.m, marker.marked, queue;
      ghost var cap := marker.stack.Length;
      over, m1, added := SortOut();
      assert SortedOut(reg0, m0, cap, q0, over, m1, added);
      if javaFinalization {
        SortedFacts(reg0, m0, q0, over, m1, added);
        FinalizeJava(reg0, m0, q0, over, m1, added);
      } else {
        QueueIsApart(reg0, m0, q0, over, m1, added);
        StillTable();
      }
    }

    /** What GC_finalize does for registered objects.  The table stays a table exactly if there is no clash. */
    ghost predicate Finalized(reg0: Registry, m0: set<int>, cap: nat, q0: seq<Ready>, over: set<int>, m1: set<int>,
                              added: seq<Ready>)
      reads this, fo, fo.head, marker, marker.stack
    {
      && marker.w.align > 0 && Blamed(reg0, m0, cap, over)
      && (HoldsTable() <==> NoClash(q0, reg0))
      && (NoClash(q0, reg0) ==> Valid() && Accounts())
      && (!javaFinalization ==> Sorted(reg0, m0, q0, over, m1, added))
      && (javaFinalization && NoClash(q0, reg0) ==> Conserved(added + q0))
      && (Separate(q0, reg0) ==> Separate(queue, fo.m))
    }

    /** The chains of links are arrays of their own. */
    ghost predicate LinksApart()
      reads fo, links.dl, links.ll, marker
    {
      && links.dl as object != fo && links.ll as object != fo
      && links.dl.head as object != fo.head && links.ll.head as object != fo.head
      && links.dl.head as object != marker.stack && links.ll.head as object != marker.stack
    }

    /** What GC_finalize begins with. */
    ghost predicate Prepared()
      reads this, fo, fo.head, marker, marker.stack
    {
      Valid() && Accounts() && marker.Finished() && QueueReached()
    }

    /** The links that disappear first. */
    method SettleEarly()
      requires Prepared() == true && links.Valid() == true && LinksApart() == true
      modifies links.dl`entries, links.dl`m, links.dl.head
      ensures Prepared() == true && links.Valid() == true && LinksApart() == true
      ensures links.dl.m == LinksToMarked(old(links.dl.m), marker.marked)
    {
      links.Early(marker.marked);
    }

    /** The links that disappear last. */
    method SettleLate(ghost reg0: Registry, ghost m0: set<int>, ghost cap: nat, ghost q0: seq<Ready>, ghost over: set<int>,
                      ghost m1: set<int>, ghost added: seq<Ready>, ghost dl0: map<Address, Address>)
      requires Finalized(reg0, m0, cap, q0, over, m1, added) == true && links.Valid() == true && LinksApart() == true
      requires links.dl.m == LinksToMarked(dl0, m0)
      modifies links.dl`entries, links.dl`m, links.dl.head, links.ll`entries, links.ll`m, links.ll.head
      ensures Finalized(reg0, m0, cap, q0, over, m1, added) == true && links.Valid() == true
      ensures links.Settled(dl0, old(links.ll.m), m0, marker.marked) == true
    {
      links.Late(marker.marked);
    }

    /** GC_finalize.  The words at the addresses of links that disappear are not part of the marker's view of memory. */
    method GcFinalize() returns (ghost over: set<int>, ghost m1: set<int>, ghost added: seq<Ready>)
      requires Prepared() == true && links.Valid() == true && LinksApart() == true
      modifies marker, marker.stack, this`queue, fo`entries, fo`m, fo.head
      modifies links.dl, links.dl.head, links.ll, links.ll.head
      ensures Finalized(old(fo.m), old(marker.marked), old(marker.stack.Length), old(queue), over, m1, added) == true
      ensures links.Valid() == true
      ensures links.Settled(old(links.dl.m), old(links.ll.m), old(marker.marked), marker.marked) == true
    {
      ghost var reg0, m0, cap, q0, dl0 := fo.m, marker.marked, marker.stack.Length, queue, links.dl.m;
      SettleEarly();
      over, m1, added := FinalizeBetween();
      SettleLate(reg0, m0, cap, q0, over, m1, added, dl0);
    }

    /** FinalizeObjects leaves the links alone. */
    method FinalizeBetween() returns (ghost over: set<int>, ghost m1: set<int>, ghost added: seq<Ready>)
      requires Prepared() == true && links.Valid() == true && LinksApart() == true
      modifies marker, marker.stack, this`queue, fo`entries, fo`m, fo.head
      ensures Finalized(old(fo.m), old(marker.marked), old(marker.stack.Length), old(queue), over, m1, added) == true
      ensures links.Valid() == true && LinksApart() == true
      ensures links.dl.m == old(links.dl.m) && links.ll.m == old(links.ll.m)
    {
      over, m1, added := FinalizeObjects();
    }

    /** The ordering guarantee: with ordinary finalizers, and Java finalization off, a registered object is queued
        exactly when it is unreachable, not reachable by a path of one or more pointers from an unreachable registered
        object, and marking from it did not overflow the mark stack.  That it cannot if fewer unmarked objects are
        ahead of it than the stack has places; FinalizeOrder.ReadyObjectWithheld shows that no fewer are enough. */
    lemma OrderGuarantee(reg0: Registry, m0: set<int>, cap: nat, q0: seq<Ready>, over: set<int>, m1: set<int>,
                         added: seq<Ready>, k: Address)
      requires Good(marker.w) == true && Closed(marker.w, m0) == true && AllNormal(reg0) && Objects(marker.w, reg0) == true && k in reg0
      requires Sorted(reg0, m0, q0, over, m1, added) && Blamed(reg0, m0, cap, over) == true
      ensures k !in fo.m <==> k !in m0 && !Behind(marker.w, m0, reg0, k) && k !in over
      ensures |Ahead(marker.w, m0, k, Normal)| < cap ==> k !in over
      ensures reg0.Keys == {k} && k !in m0 ==>
                (k !in fo.m <==> !Path(marker.w, k, k) && !Overflows(marker.w, cap, m0, k, Normal))
      ensures Ready(k, reg0[k]) in added <==> k !in fo.m
      ensures Path(marker.w, k, k) ==> k in fo.m
      ensures forall x | Path(marker.w, k, x) :: x in marker.marked
    {
      ReadyIff(marker.w, m0, reg0, over, m1, k);
      assert PickedKey(reg0, fo.m, added, k);
      if k !in fo.m {
        assert PickedReady(reg0, m1, fo.m, added, Ready(k, reg0[k]));
      }
      if k in over {
        assert CrowdedAt(marker.w, cap, m0, reg0, k);
      }
      if reg0.Keys == {k} && k !in m0 {
        var m, len :| Lone(marker.w, cap, m0, reg0, reg0.Keys, over, m, len);
        SingleIff(marker.w, cap, m0, reg0, over, m1, k, m, len);
      }
      if Path(marker.w, k, k) {
        CycleNeverReady(marker.w, m0, reg0, over, m1, k);
      }
      forall x | Path(marker.w, k, x) ensures x in marker.marked {
        ContentsMarked(marker.w, m0, reg0, over, m1, k, x);
      }
    }
  }
}
