/**
 The manager of Fork's parallel statements (parContextManager.cpp): futures of scheduled statements by context, result
 type and statement id, and a bound on the number of threads.  Each region under the manager's mutex is one operation.
 */
module ParContext {

  /** The result types, each with a map of its own in StatementContext. */
  datatype Kind = Int | Float | Intptr | Floatptr | Void

  /** Where a future is found: context, result type and statement id. */
  type Key = (int, Kind, int)

  /** The future of task number task, which runs in a thread of its own or when somebody waits for it. */
  datatype Future = Future(task: nat, async: bool)

  /** What an operation does in place of returning: std::out_of_range is thrown, or an assertion fails. */
  datatype Outcome<T> = Ok(value: T) | OutOfRange | AssertionFailed

  datatype Manager = Manager(contexts: set<int>, futures: map<Key, Future>, count: int, max: int, next: int)

  // --------------------------------------------------------------------------------- the operations on values

  function Make(m: Manager): Manager {
    m.(contexts := m.contexts + {m.next}, next := m.next + 1)
  }

  function Destroy(m: Manager, cid: int): Manager {
    m.(contexts := m.contexts - {cid}, futures := map k | k in m.futures && k.0 != cid :: m.futures[k])
  }

  /** The pool has room for another thread. */
  predicate HasRoom(m: Manager) {
    m.count < m.max
  }

  function Sched(m: Manager, key: Key, task: nat): Manager {
    m.(count := if HasRoom(m) then m.count + 1 else m.count, futures := m.futures[key := Future(task, HasRoom(m))])
  }

  function Take(m: Manager, key: Key): Manager {
    m.(futures := m.futures - {key})
  }

  function Release(m: Manager): Manager {
    m.(count := m.count - 1)
  }

  // ----------------------------------------------------------------------------------------- thread accounting

  /** The futures that are stored and have a thread. */
  function Stored(m: Manager): set<Key> {
    set k | k in m.futures && m.futures[k].async
  }

  /** The count of threads is exact when taken futures with threads await the release of theirs. */
  ghost predicate Accounted(m: Manager, taken: int) {
    m.count == |Stored(m)| + taken && taken >= 0 && m.count <= m.max
  }

  lemma CountInRange(m: Manager, taken: int)
    requires Accounted(m, taken)
    ensures 0 <= m.count <= m.max && (m.futures == map[] && taken == 0 ==> m.count == 0)
  {
    if m.futures == map[] {
      assert Stored(m) == {};
    }
  }

  lemma SchedAccounted(m: Manager, key: Key, task: nat, taken: int)
    requires Accounted(m, taken) && key !in m.futures
    ensures Accounted(Sched(m, key, task), taken)
  {
    assert Stored(Sched(m, key, task)) == if HasRoom(m) then Stored(m) + {key} else Stored(m);
  }

  lemma TakeAccounted(m: Manager, key: Key, taken: int)
    requires Accounted(m, taken) && key in m.futures
    ensures Accounted(Take(m, key), if m.futures[key].async then taken + 1 else taken)
  {
    assert Stored(Take(m, key)) == Stored(m) - {key};
  }

  lemma ReleaseAccounted(m: Manager, taken: int)
    requires Accounted(m, taken) && taken > 0
    ensures Accounted(Release(m), taken - 1)
  {
    assert Stored(Release(m)) == Stored(m);
  }

  lemma MakeAccounted(m: Manager, taken: int)
    requires Accounted(m, taken)
    ensures Accounted(Make(m), taken)
  {
    assert Stored(Make(m)) == Stored(m);
  }

  lemma CardinalityOfUnion(a: set<Key>, b: set<Key>)
    requires a !! b
    ensures |a + b| == |a| + |b|
  {
  }

  /** Destroying a context loses threads unless all its statements with threads have been reconciled. */
  lemma DestroyAccountedIff(m: Manager, cid: int, taken: int)
    requires Accounted(m, taken)
    ensures Accounted(Destroy(m, cid), taken) <==> NoThreads(m, cid)
  {
    var d := Destroy(m, cid);
    var lost := set k | k in Stored(m) && k.0 == cid;
    assert Stored(m) == Stored(d) + lost;
    CardinalityOfUnion(Stored(d), lost);
    LostIff(m, cid, lost);
  }

  /** No statement of the context has a thread. */
  ghost predicate NoThreads(m: Manager, cid: int) {
    forall k {:trigger k in m.futures} | k in m.futures && k.0 == cid :: !m.futures[k].async
  }

  lemma LostIff(m: Manager, cid: int, lost: set<Key>)
    requires lost == set k | k in Stored(m) && k.0 == cid
    ensures NoThreads(m, cid) <==> |lost| == 0
  {
    if !NoThreads(m, cid) {
      var k :| k in m.futures && k.0 == cid && m.futures[k].async;
      assert k in lost;
      assert lost == {k} + (lost - {k});
      CardinalityOfUnion({k}, lost - {k});
    } else {
      assert lost == {};
    }
  }

  /** A statement that is scheduled under a context that does not exist costs a thread exactly if the pool had room. */
  lemma LeakIff(m: Manager, taken: int)
    requires Accounted(m, taken)
    ensures Accounted(m.(count := if HasRoom(m) then m.count + 1 else m.count), taken) <==> !HasRoom(m)
  {
    assert Stored(m.(count := m.count + 1)) == Stored(m);
  }

  // --------------------------------------------------------------------------------------------------- the class

  class ParContextManager {
    var contexts: set<int>
    var futures: map<Key, Future>
    var threadCount: int
    var maxThreads: int
    var nextCid: int
    /** The mutex was left locked. */
    var locked: bool

    function State(): Manager
      reads this
    {
      Manager(contexts, futures, threadCount, maxThreads, nextCid)
    }

    /** set_max_threads clamps the number of compute elements to 2..4. */
    constructor (computeElements: nat)
      ensures State() == Manager({}, map[], 0, maxThreads, 0) && !locked && Accounted(State(), 0)
      ensures 2 <= maxThreads <= 4 && (2 <= computeElements <= 4 ==> maxThreads == computeElements)
      ensures (computeElements < 2 ==> maxThreads == 2) && (computeElements > 4 ==> maxThreads == 4)
    {
      contexts, futures, threadCount, nextCid, locked := {}, map[], 0, 0, false;
      maxThreads := if computeElements < 2 then 2 else if computeElements > 4 then 4 else computeElements;
      new;
      assert Stored(State()) == {};
    }

    method MakeContext() returns (cid: int)
      requires !locked
      modifies this`contexts, this`nextCid
      ensures cid == old(nextCid) && State() == Make(old(State()))
    {
      cid := nextCid;
      nextCid := nextCid + 1;
      contexts := contexts + {cid};
    }

    method DestroyContext(cid: int) returns (r: Outcome<()>)
      requires !locked
      modifies this`contexts, this`futures
      ensures r == if cid in old(contexts) then Ok(()) else AssertionFailed
      ensures State() == if r.Ok? then Destroy(old(State()), cid) else old(State())
    {
      if cid !in contexts {
        return AssertionFailed;
      }
      contexts := contexts - {cid};
      futures := map k | k in futures && k.0 != cid :: futures[k];
      r := Ok(());
    }

    /** sched_int and the others; the value tells whether the statement got a thread.  The thread is started and counted
        before the context is looked up. */
    method Schedule(kind: Kind, task: nat, id: int, cid: int) returns (r: Outcome<bool>)
      requires !locked
      modifies this`futures, this`threadCount
      ensures r == if cid !in contexts then OutOfRange else if (cid, kind, id) in old(futures) then AssertionFailed
                   else Ok(old(HasRoom(State())))
      ensures r.Ok? ==> State() == Sched(old(State()), (cid, kind, id), task)
      ensures !r.Ok? ==> futures == old(futures) && threadCount == old(threadCount) + if old(HasRoom(State())) then 1 else 0
    {
      var async := threadCount < maxThreads;
      if async {
        threadCount := threadCount + 1;
      }
      if cid !in contexts {
        return OutOfRange;
      }
      if (cid, kind, id) in futures {
        return AssertionFailed;
      }
      futures := futures[(cid, kind, id) := Future(task, async)];
      r := Ok(async);
    }

    /** The first region of recon_int and the others: take the future.  If there is none the mutex is left locked. */
    method TakeFuture(kind: Kind, id: int, cid: int) returns (r: Outcome<Future>)
      requires !locked
      modifies this`futures, this`locked
      ensures r == if cid in contexts && (cid, kind, id) in old(futures) then Ok(old(futures)[(cid, kind, id)]) else OutOfRange
      ensures State() == if r.Ok? then Take(old(State()), (cid, kind, id)) else old(State())
      ensures locked <==> !r.Ok?
    {
      locked := true;
      if cid !in contexts || (cid, kind, id) !in futures {
        return OutOfRange;
      }
      r := Ok(futures[(cid, kind, id)]);
      futures := futures - {(cid, kind, id)};
      locked := false;
    }

    /** The second region, after the value of a future with a thread was got. */
    method ReleaseThread()
      requires !locked
      modifies this`threadCount
      ensures State() == Release(old(State()))
    {
      threadCount := threadCount - 1;
    }
  }
}
