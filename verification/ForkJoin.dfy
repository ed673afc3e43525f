/**
 Runs of nested parallel statements over the manager of parContextManager.cpp: every region under its mutex, every start
 of a deferred statement and every wait for a future is one step, and steps of different threads interleave freely.
 */
module ForkJoin {
  import opened ParContext

  // -------------------------------------------------------------------------------------------------- programs

  /** What a statement does: make the next of its contexts, schedule a statement under its context number ctx, reconcile
      one, destroy a context. */
  datatype Op =
    | MakeOp
    | SchedOp(ctx: nat, kind: Kind, id: int, body: Stmt)
    | ReconOp(ctx: nat, kind: Kind, id: int)
    | DestroyOp(ctx: nat)

  /** A statement, and the value it returns given those that it reconciled. */
  datatype Stmt = Stmt(ops: seq<Op>, ret: seq<int> -> int)

  /** How a statement names what it scheduled. */
  type Local = (nat, Kind, int)

  /** Where a statement is when it has done some of its operations, were all statements done at once: the number of
      contexts it made, those not destroyed, the values of statements not yet reconciled, and the values it got. */
  datatype Progress = Progress(made: nat, live: set<nat>, out: map<Local, int>, vals: seq<int>)

  function At(s: Stmt, n: nat): Progress
    requires n <= |s.ops|
    decreases s, n
  {
    if n == 0 then Progress(0, {}, map[], [])
    else
      var p := At(s, n - 1);
      match s.ops[n - 1]
      case MakeOp => p.(made := p.made + 1, live := p.live + {p.made})
      case SchedOp(ctx, kind, id, body) => p.(out := p.out[(ctx, kind, id) := Eval(body)])
      case ReconOp(ctx, kind, id) =>
        p.(out := p.out - {(ctx, kind, id)}, vals := p.vals + [if (ctx, kind, id) in p.out then p.out[(ctx, kind, id)] else 0])
      case DestroyOp(ctx) => p.(live := p.live - {ctx})
  }

  /** The value of a statement when it is run without any parallelism. */
  function Eval(s: Stmt): int
    decreases s, |s.ops| + 1
  {
    s.ret(At(s, |s.ops|).vals)
  }

  /** The operation meets with what it needs: a statement waits only for what it scheduled itself. */
  predicate OpOk(p: Progress, op: Op) {
    match op
    case MakeOp => true
    case SchedOp(ctx, kind, id, _) => ctx in p.live && (ctx, kind, id) !in p.out
    case ReconOp(ctx, kind, id) => (ctx, kind, id) in p.out
    case DestroyOp(ctx) => ctx in p.live && forall k | k in p.out :: k.0 != ctx
  }

  /** Every statement that is scheduled is reconciled, before its context is destroyed, here and in what it schedules. */
  predicate WellFormed(s: Stmt)
    decreases s
  {
    && (forall n | 0 <= n < |s.ops| :: OpOk(At(s, n), s.ops[n]) && (s.ops[n].SchedOp? ==> WellFormed(s.ops[n].body)))
    && At(s, |s.ops|).out == map[]
  }

  /** The number of steps that a statement and all that it schedules can take. */
  function Weight(s: Stmt): nat
    decreases s, |s.ops| + 1
  {
    1 + WeightFrom(s, 0)
  }

  function WeightFrom(s: Stmt, n: nat): nat
    requires n <= |s.ops|
    decreases s, |s.ops| - n
  {
    if n == |s.ops| then 0
    else WeightFrom(s, n + 1) + match s.ops[n]
      case SchedOp(_, _, _, body) => 2 + Weight(body)
      case ReconOp(_, _, _) => 4
      case _ => 1
  }

  // ---------------------------------------------------------------------------------------------------- states

  /** Where a task is.  Idle is a deferred one that nobody waits for yet; Got holds a future taken from the manager,
      Joined one of a thread whose value was got but which is still counted. */
  datatype Phase =
    | Idle
    | Running
    | Got(f: Future)
    | Joined(value: int)
    | Finished(result: int)

  /** A statement being run: the operations done, the contexts made, and the values got. */
  datatype Task = Task(stmt: Stmt, pos: nat, cids: seq<int>, vals: seq<int>, phase: Phase)

  datatype State = State(m: Manager, tasks: seq<Task>)

  predicate Current(t: Task) {
    t.pos < |t.stmt.ops|
  }

  /** Task number i can make a step, given that the manager has what it asks for. */
  predicate CanStep(s: State, i: nat) {
    i < |s.tasks| && var t := s.tasks[i];
    match t.phase
    case Idle => false
    case Running => Current(t) ==> Served(s.m, t, t.stmt.ops[t.pos])
    case Got(f) => f.task < |s.tasks| &&
      (s.tasks[f.task].phase.Finished? || (!f.async && s.tasks[f.task].phase.Idle?))
    case Joined(_) => true
    case Finished(_) => false
  }

  function KeyOf(t: Task, ctx: nat, kind: Kind, id: int): Key
    requires ctx < |t.cids|
  {
    (t.cids[ctx], kind, id)
  }

  /** The manager does not throw or fail an assertion. */
  predicate Served(m: Manager, t: Task, op: Op) {
    match op
    case MakeOp => true
    case SchedOp(ctx, kind, id, _) => ctx < |t.cids| && t.cids[ctx] in m.contexts && KeyOf(t, ctx, kind, id) !in m.futures
    case ReconOp(ctx, kind, id) => ctx < |t.cids| && t.cids[ctx] in m.contexts && KeyOf(t, ctx, kind, id) in m.futures
    case DestroyOp(ctx) => ctx < |t.cids| && t.cids[ctx] in m.contexts
  }

  function Put(s: State, i: nat, t: Task): State
    requires i < |s.tasks|
  {
    s.(tasks := s.tasks[i := t])
  }

  function Step(s: State, i: nat): State
    requires CanStep(s, i)
  {
    var t := s.tasks[i];
    match t.phase
    case Running =>
      if !Current(t) then Put(s, i, t.(phase := Finished(t.stmt.ret(t.vals)))) else OpStep(s, i, t, t.stmt.ops[t.pos])
    case Got(f) =>
      (match s.tasks[f.task].phase
       case Finished(v) => Put(s, i, if f.async then t.(phase := Joined(v)) else t.(phase := Running, vals := t.vals + [v]))
       case _ => Put(s, f.task, s.tasks[f.task].(phase := Running)))
    case Joined(v) => Put(s, i, t.(phase := Running, vals := t.vals + [v])).(m := Release(s.m))
    case _ => s
  }

  function OpStep(s: State, i: nat, t: Task, op: Op): State
    requires i < |s.tasks| && Served(s.m, t, op)
  {
    var t1 := t.(pos := t.pos + 1);
    match op
    case MakeOp => Put(s, i, t1.(cids := t.cids + [s.m.next])).(m := Make(s.m))
    case SchedOp(ctx, kind, id, body) =>
      var scheduled := Task(body, 0, [], [], if HasRoom(s.m) then Running else Idle);
      State(ParContext.Sched(s.m, KeyOf(t, ctx, kind, id), |s.tasks|), s.tasks[i := t1] + [scheduled])
    case ReconOp(ctx, kind, id) =>
      var key := KeyOf(t, ctx, kind, id);
      Put(s, i, t1.(phase := Got(s.m.futures[key]))).(m := Take(s.m, key))
    case DestroyOp(ctx) => Put(s, i, t1).(m := Destroy(s.m, t.cids[ctx]))
  }

  ghost predicate Initial(s: State, root: Stmt) {
    s == State(Manager({}, map[], 0, s.m.max, 0), [Task(root, 0, [], [], Running)])
  }

  // ------------------------------------------------------------------------------------------------- programs

  /** Contexts in use were made, and what is out is out under a context in use. */
  lemma {:induction false} AtFacts(s: Stmt, n: nat)
    requires WellFormed(s) && n <= |s.ops|
    ensures forall c {:trigger c in At(s, n).live} | c in At(s, n).live :: c < At(s, n).made
    ensures forall k {:trigger k in At(s, n).out} | k in At(s, n).out :: k.0 in At(s, n).live
  {
    if n > 0 {
      AtFacts(s, n - 1);
      assert OpOk(At(s, n - 1), s.ops[n - 1]);
    }
  }

  lemma OpHere(s: Stmt, n: nat)
    requires WellFormed(s) && n < |s.ops|
    ensures OpOk(At(s, n), s.ops[n]) && (s.ops[n].SchedOp? ==> WellFormed(s.ops[n].body))
  {
  }

  // ------------------------------------------------------------------------------------------- the invariant

  function Global(t: Task, k: Local): Key
    requires k.0 < |t.cids|
  {
    (t.cids[k.0], k.1, k.2)
  }

  /** The future is one of a later task, started if it has a thread, that will return v. */
  predicate FutureOk(s: State, i: nat, f: Future, v: int) {
    i < f.task < |s.tasks| && Eval(s.tasks[f.task].stmt) == v && (f.async ==> !s.tasks[f.task].phase.Idle?)
  }

  /** What task t has scheduled as k and not reconciled is stored under its context. */
  predicate OutOk(s: State, i: nat, t: Task, k: Local, v: int) {
    k.0 < |t.cids| && Global(t, k) in s.m.futures && FutureOk(s, i, s.m.futures[Global(t, k)], v)
  }

  predicate PhaseOk(s: State, i: nat, t: Task)
    requires t.pos <= |t.stmt.ops|
  {
    var vals := At(t.stmt, t.pos).vals;
    match t.phase
    case Idle => t.pos == 0 && t.vals == vals
    case Running => t.vals == vals
    case Got(f) => |vals| > 0 && t.vals == vals[..|vals| - 1] && FutureOk(s, i, f, vals[|vals| - 1])
    case Joined(v) => vals == t.vals + [v]
    case Finished(v) => t.pos == |t.stmt.ops| && v == Eval(t.stmt)
  }

  ghost predicate TaskOk(s: State, i: nat, t: Task) {
    && t.pos <= |t.stmt.ops| && WellFormed(t.stmt)
    && |t.cids| == At(t.stmt, t.pos).made
    && (forall c {:trigger t.cids[c]} | 0 <= c < |t.cids| :: t.cids[c] < s.m.next)
    && (forall c {:trigger c in At(t.stmt, t.pos).live} | c in At(t.stmt, t.pos).live :: c < |t.cids| && t.cids[c] in s.m.contexts)
    && (forall k {:trigger OutOk(s, i, t, k, At(t.stmt, t.pos).out[k])} | k in At(t.stmt, t.pos).out ::
          OutOk(s, i, t, k, At(t.stmt, t.pos).out[k]))
    && PhaseOk(s, i, t)
  }

  function Cid(s: State, i: nat, c: nat): int
    requires i < |s.tasks| && c < |s.tasks[i].cids|
  {
    s.tasks[i].cids[c]
  }

  /** No two contexts have the same number. */
  ghost predicate Distinct(s: State) {
    forall i: nat, c: nat, j: nat, d: nat {:trigger Cid(s, i, c), Cid(s, j, d)} |
      i < |s.tasks| && c < |s.tasks[i].cids| && j < |s.tasks| && d < |s.tasks[j].cids| && Cid(s, i, c) == Cid(s, j, d) ::
      i == j && c == d
  }

  /** Task i scheduled what is stored under key. */
  ghost predicate Owns(s: State, i: nat, k: Local, key: Key) {
    && i < |s.tasks| && s.tasks[i].pos <= |s.tasks[i].stmt.ops|
    && k.0 < |s.tasks[i].cids| && k in At(s.tasks[i].stmt, s.tasks[i].pos).out && Global(s.tasks[i], k) == key
  }

  ghost predicate Owned(s: State, key: Key) {
    exists i: nat, k :: Owns(s, i, k, key)
  }

  ghost predicate Waits(s: State, i: nat, j: nat) {
    i < |s.tasks| && s.tasks[i].phase.Got? && s.tasks[i].phase.f.task == j
  }

  /** Somebody can wait for task j. */
  ghost predicate Wanted(s: State, j: nat) {
    (exists key {:trigger s.m.futures[key]} :: key in s.m.futures && s.m.futures[key].task == j) || (exists i: nat :: Waits(s, i, j))
  }

  /** The threads that are counted although their futures were taken. */
  function Taken(ts: seq<Task>): nat {
    if ts == [] then 0
    else Taken(ts[..|ts| - 1]) + InFlight(ts[|ts| - 1])
  }

  function InFlight(t: Task): nat {
    if t.phase.Joined? || (t.phase.Got? && t.phase.f.async) then 1 else 0
  }

  ghost predicate Inv(s: State) {
    && |s.tasks| > 0 && !s.tasks[0].phase.Idle?
    && (forall i: nat {:trigger TaskOk(s, i, s.tasks[i])} | i < |s.tasks| :: TaskOk(s, i, s.tasks[i]))
    && Distinct(s)
    && (forall key {:trigger Owned(s, key)} | key in s.m.futures :: Owned(s, key))
    && (forall j: nat {:trigger Wanted(s, j)} | j < |s.tasks| && s.tasks[j].phase.Idle? :: Wanted(s, j))
    && Accounted(s.m, Taken(s.tasks))
  }

  lemma InitialInv(s: State, root: Stmt)
    requires Initial(s, root) && WellFormed(root) && s.m.max >= 0
    ensures Inv(s)
  {
    assert Stored(s.m) == {};
    assert TaskOk(s, 0, s.tasks[0]);
    assert s.tasks[..0] == [];
  }

  // ------------------------------------------------------------------------------------- what a step leaves alone

  /** From s to s1 tasks keep their statements, and those started stay so. */
  ghost predicate Extends(s: State, s1: State) {
    && |s.tasks| <= |s1.tasks| && s.m.next <= s1.m.next
    && forall k {:trigger s1.tasks[k]} | 0 <= k < |s.tasks| ::
      s1.tasks[k].stmt == s.tasks[k].stmt && (s1.tasks[k].phase.Idle? ==> s.tasks[k].phase.Idle?)
  }

  /** From s to s1 the contexts of task t and what is stored under them stay. */
  ghost predicate Leaves(s: State, s1: State, t: Task) {
    && (forall c {:trigger t.cids[c]} | 0 <= c < |t.cids| && t.cids[c] in s.m.contexts :: t.cids[c] in s1.m.contexts)
    && (forall k {:trigger k in s1.m.futures} | k in s.m.futures && k.0 in t.cids :: k in s1.m.futures && s1.m.futures[k] == s.m.futures[k])
  }

  lemma TaskStays(s: State, s1: State, i: nat, t: Task)
    requires TaskOk(s, i, t) && Extends(s, s1) && Leaves(s, s1, t)
    ensures TaskOk(s1, i, t)
  {
    var p := At(t.stmt, t.pos);
    forall k {:trigger OutOk(s1, i, t, k, p.out[k])} | k in p.out ensures OutOk(s1, i, t, k, p.out[k]) {
      assert OutOk(s, i, t, k, p.out[k]);
      var f := s.m.futures[Global(t, k)];
      assert Global(t, k).0 in t.cids;
      assert Global(t, k) in s1.m.futures;
      assert s1.tasks[f.task].stmt == s.tasks[f.task].stmt;
    }
    if t.phase.Got? {
      assert s1.tasks[t.phase.f.task].stmt == s.tasks[t.phase.f.task].stmt;
    }
  }

  /** What one task does leaves the contexts of the others alone. */
  lemma OthersStay(s: State, s1: State, i: nat, j: nat)
    requires Inv(s) == true && i < |s.tasks| && j < |s.tasks| && j != i && Extends(s, s1)
    requires forall c {:trigger c in s1.m.contexts} | c in s.m.contexts && c !in s.tasks[i].cids :: c in s1.m.contexts
    requires forall k {:trigger k in s1.m.futures} | k in s.m.futures && k.0 !in s.tasks[i].cids ::
               k in s1.m.futures && s1.m.futures[k] == s.m.futures[k]
    ensures TaskOk(s1, j, s.tasks[j])
  {
    var t := s.tasks[j];
    assert TaskOk(s, j, t);
    forall d: nat, e: nat | d < |t.cids| && e < |s.tasks[i].cids| ensures t.cids[d] != s.tasks[i].cids[e] {
      var x, y := Cid(s, j, d), Cid(s, i, e);
    }
    assert Leaves(s, s1, t) by {
      forall c {:trigger t.cids[c]} | 0 <= c < |t.cids| && t.cids[c] in s.m.contexts ensures t.cids[c] in s1.m.contexts {
        assert t.cids[c] in t.cids;
      }
    }
    TaskStays(s, s1, j, t);
  }

  lemma TakenUpdate(ts: seq<Task>, i: nat, t: Task)
    requires i < |ts|
    ensures Taken(ts[i := t]) == Taken(ts) - InFlight(ts[i]) + InFlight(t)
    decreases |ts|
  {
    var n := |ts| - 1;
    if i < n {
      TakenUpdate(ts[..n], i, t);
      assert ts[i := t][..n] == ts[..n][i := t];
    } else {
      assert ts[i := t][..n] == ts[..n];
    }
  }

  // ------------------------------------------------------------------------------------------- steps of a task

  /** Who waited for j still does. */
  lemma WantedStays(s: State, s1: State, i: nat, j: nat)
    requires Wanted(s, j) && s1.m.futures == s.m.futures && i < |s.tasks| <= |s1.tasks|
    requires forall k {:trigger s1.tasks[k]} | 0 <= k < |s.tasks| && k != i && s.tasks[k].phase.Got? :: s1.tasks[k] == s.tasks[k]
    requires Waits(s, i, j) ==> Waits(s1, i, j)
    ensures Wanted(s1, j)
  {
    if k: nat :| Waits(s, k, j) {
      assert Waits(s1, k, j);
    } else {
      var key :| key in s.m.futures && s.m.futures[key].task == j;
      assert s1.m.futures[key].task == j;
    }
  }

  /** A step that changes the phase and the values of task x only, and of the manager no more than the count. */
  lemma PhaseStep(s: State, s1: State, x: nat)
    requires Inv(s) == true && s1.m == s.m.(count := s1.m.count) && x < |s.tasks| == |s1.tasks|
    requires s1.tasks == s.tasks[x := s.tasks[x].(phase := s1.tasks[x].phase, vals := s1.tasks[x].vals)]
    requires !s1.tasks[x].phase.Idle? && s1.tasks[x].pos <= |s1.tasks[x].stmt.ops| && PhaseOk(s1, x, s1.tasks[x]) == true
    requires forall j: nat {:trigger Waits(s, x, j)} | Waits(s, x, j) && j < |s.tasks| && s1.tasks[j].phase.Idle? :: Waits(s1, x, j)
    requires Accounted(s1.m, Taken(s.tasks) - InFlight(s.tasks[x]) + InFlight(s1.tasks[x]))
    ensures Inv(s1) == true
  {
    TakenUpdate(s.tasks, x, s1.tasks[x]);
    assert Extends(s, s1);
    forall j: nat {:trigger TaskOk(s1, j, s1.tasks[j])} | j < |s1.tasks| ensures TaskOk(s1, j, s1.tasks[j]) {
      if j == x {
        PhaseOkTask(s, s1, x);
      } else {
        OthersStay(s, s1, x, j);
      }
    }
    forall key {:trigger Owned(s1, key)} | key in s1.m.futures ensures Owned(s1, key) {
      assert Owned(s, key);
      var i: nat, k :| Owns(s, i, k, key);
      assert Owns(s1, i, k, key);
    }
    SameCids(s, s1);
    forall j: nat {:trigger Wanted(s1, j)} | j < |s1.tasks| && s1.tasks[j].phase.Idle? ensures Wanted(s1, j) {
      assert Wanted(s, j);
      WantedStays(s, s1, x, j);
    }
  }

  lemma PhaseOkTask(s: State, s1: State, x: nat)
    requires Inv(s) == true && x < |s.tasks| && Extends(s, s1)
    requires s1.m.futures == s.m.futures && s1.m.contexts == s.m.contexts
    requires s1.tasks[x] == s.tasks[x].(phase := s1.tasks[x].phase, vals := s1.tasks[x].vals)
    requires s1.tasks[x].pos <= |s1.tasks[x].stmt.ops| && PhaseOk(s1, x, s1.tasks[x]) == true
    ensures TaskOk(s1, x, s1.tasks[x])
  {
    var t, t1 := s.tasks[x], s1.tasks[x];
    assert TaskOk(s, x, t);
    var p := At(t.stmt, t.pos);
    forall k {:trigger OutOk(s1, x, t1, k, p.out[k])} | k in p.out ensures OutOk(s1, x, t1, k, p.out[k]) {
      assert OutOk(s, x, t, k, p.out[k]);
      assert s1.tasks[s.m.futures[Global(t, k)].task].stmt == s.tasks[s.m.futures[Global(t, k)].task].stmt;
    }
  }

  /** A task returns. */
  lemma ReturnKeeps(s: State, i: nat)
    requires Inv(s) == true && CanStep(s, i) && s.tasks[i].phase.Running? && !Current(s.tasks[i])
    ensures Inv(Step(s, i)) == true
  {
    assert TaskOk(s, i, s.tasks[i]);
    PhaseStep(s, Step(s, i), i);
  }

  /** A task starts the deferred one that it waits for. */
  lemma StartKeeps(s: State, i: nat)
    requires Inv(s) == true && CanStep(s, i) && s.tasks[i].phase.Got? && !s.tasks[s.tasks[i].phase.f.task].phase.Finished?
    ensures Inv(Step(s, i)) == true
  {
    var c := s.tasks[i].phase.f.task;
    assert TaskOk(s, c, s.tasks[c]);
    PhaseStep(s, Step(s, i), c);
  }

  /** A task gets the value of the one that it waits for. */
  lemma GetKeeps(s: State, i: nat)
    requires Inv(s) == true && CanStep(s, i) && s.tasks[i].phase.Got? && s.tasks[s.tasks[i].phase.f.task].phase.Finished?
    ensures Inv(Step(s, i)) == true
  {
    GotValue(s, i);
    PhaseStep(s, Step(s, i), i);
  }

  /** The value is the one that the statement returns when it is run without parallelism. */
  lemma GotValue(s: State, i: nat)
    requires Inv(s) == true && CanStep(s, i) && s.tasks[i].phase.Got? && s.tasks[s.tasks[i].phase.f.task].phase.Finished?
    ensures var s1 := Step(s, i); s1.tasks[i].pos <= |s1.tasks[i].stmt.ops| && PhaseOk(s1, i, s1.tasks[i]) == true
  {
    var t := s.tasks[i];
    var c := t.phase.f.task;
    assert TaskOk(s, i, t) && PhaseOk(s, i, t);
    assert TaskOk(s, c, s.tasks[c]) && PhaseOk(s, c, s.tasks[c]);
    LastAdded(At(t.stmt, t.pos).vals);
  }

  lemma LastAdded(vals: seq<int>)
    requires vals != []
    ensures vals == vals[..|vals| - 1] + [vals[|vals| - 1]]
  {
  }

  /** A task lets go of a thread. */
  lemma ReleaseKeeps(s: State, i: nat)
    requires Inv(s) == true && CanStep(s, i) && s.tasks[i].phase.Joined?
    ensures Inv(Step(s, i)) == true
  {
    assert TaskOk(s, i, s.tasks[i]);
    TakenPositive(s.tasks, i);
    ReleaseAccounted(s.m, Taken(s.tasks));
    PhaseStep(s, Step(s, i), i);
  }

  lemma TakenPositive(ts: seq<Task>, i: nat)
    requires i < |ts| && InFlight(ts[i]) == 1
    ensures Taken(ts) > 0
    decreases |ts|
  {
    if i < |ts| - 1 {
      TakenPositive(ts[..|ts| - 1], i);
    }
  }

  /** Task i has an operation to do that the manager can serve. */
  ghost predicate Doing(s: State, i: nat, op: Op) {
    i < |s.tasks| && s.tasks[i].phase.Running? && Current(s.tasks[i]) && s.tasks[i].stmt.ops[s.tasks[i].pos] == op &&
    Served(s.m, s.tasks[i], op)
  }

  /** What is known of a task that does an operation. */
  lemma DoingFacts(s: State, i: nat, op: Op)
    requires Inv(s) == true && Doing(s, i, op)
    ensures var t := s.tasks[i];
      && TaskOk(s, i, t) && t.vals == At(t.stmt, t.pos).vals
      && OpOk(At(t.stmt, t.pos), op) && (op.SchedOp? ==> WellFormed(op.body))
      && (forall k {:trigger k in At(t.stmt, t.pos).out} | k in At(t.stmt, t.pos).out ::
            k.0 in At(t.stmt, t.pos).live && OutOk(s, i, t, k, At(t.stmt, t.pos).out[k]))
  {
    var t := s.tasks[i];
    assert TaskOk(s, i, t);
    OpHere(t.stmt, t.pos);
    AtFacts(t.stmt, t.pos);
  }

  /** All tasks are as they must be after task i made a step. */
  lemma AllTasksOk(s: State, s1: State, i: nat)
    requires Inv(s) == true && i < |s.tasks| == |s1.tasks| && Extends(s, s1) && TaskOk(s1, i, s1.tasks[i]) == true
    requires forall j {:trigger s1.tasks[j]} | 0 <= j < |s.tasks| && j != i :: s1.tasks[j] == s.tasks[j]
    requires forall c {:trigger c in s1.m.contexts} | c in s.m.contexts && c !in s.tasks[i].cids :: c in s1.m.contexts
    requires forall k {:trigger k in s1.m.futures} | k in s.m.futures && k.0 !in s.tasks[i].cids ::
               k in s1.m.futures && s1.m.futures[k] == s.m.futures[k]
    ensures forall j: nat {:trigger TaskOk(s1, j, s1.tasks[j])} | j < |s1.tasks| :: TaskOk(s1, j, s1.tasks[j])
  {
    forall j: nat {:trigger TaskOk(s1, j, s1.tasks[j])} | j < |s1.tasks| ensures TaskOk(s1, j, s1.tasks[j]) {
      if j != i {
        OthersStay(s, s1, i, j);
      }
    }
  }

  lemma MakeOwn(s: State, i: nat)
    requires Inv(s) == true && Doing(s, i, MakeOp)
    ensures TaskOk(OpStep(s, i, s.tasks[i], MakeOp), i, OpStep(s, i, s.tasks[i], MakeOp).tasks[i])
  {
    var s1, t := OpStep(s, i, s.tasks[i], MakeOp), s.tasks[i];
    var t1, p, p1 := s1.tasks[i], At(t.stmt, t.pos), At(t.stmt, t.pos + 1);
    DoingFacts(s, i, MakeOp);
    AtFacts(t.stmt, t.pos);
    forall k {:trigger OutOk(s1, i, t1, k, p1.out[k])} | k in p1.out ensures OutOk(s1, i, t1, k, p1.out[k]) {
      assert OutOk(s, i, t, k, p.out[k]);
      assert s1.tasks[s.m.futures[Global(t, k)].task].stmt == s.tasks[s.m.futures[Global(t, k)].task].stmt;
    }
    forall c {:trigger t1.cids[c]} | 0 <= c < |t1.cids| ensures t1.cids[c] < s1.m.next {
      assert c < |t.cids| ==> t.cids[c] < s.m.next;
    }
    forall c {:trigger c in p1.live} | c in p1.live ensures c < |t1.cids| && t1.cids[c] in s1.m.contexts {
      assert c in p.live || c == p.made;
    }
  }

  lemma CidBelow(s: State, i: nat, c: nat)
    requires Inv(s) == true && i < |s.tasks| && c < |s.tasks[i].cids|
    ensures s.tasks[i].cids[c] < s.m.next
  {
    assert TaskOk(s, i, s.tasks[i]);
  }

  lemma MakeDistinct(s: State, i: nat)
    requires Inv(s) == true && Doing(s, i, MakeOp)
    ensures Distinct(OpStep(s, i, s.tasks[i], MakeOp))
  {
    var s1 := OpStep(s, i, s.tasks[i], MakeOp);
    forall a: nat, c: nat, b: nat, d: nat {:trigger Cid(s1, a, c), Cid(s1, b, d)} |
      a < |s1.tasks| && c < |s1.tasks[a].cids| && b < |s1.tasks| && d < |s1.tasks[b].cids| && Cid(s1, a, c) == Cid(s1, b, d)
      ensures a == b && c == d
    {
      if c < |s.tasks[a].cids| && d < |s.tasks[b].cids| {
        assert Cid(s, a, c) == Cid(s, b, d);
      } else if c < |s.tasks[a].cids| {
        CidBelow(s, a, c);
      } else if d < |s.tasks[b].cids| {
        CidBelow(s, b, d);
      }
    }
  }

  lemma MakeKeeps(s: State, i: nat)
    requires Inv(s) == true && Doing(s, i, MakeOp)
    ensures Inv(OpStep(s, i, s.tasks[i], MakeOp)) == true
  {
    var s1, t := OpStep(s, i, s.tasks[i], MakeOp), s.tasks[i];
    MakeOwn(s, i);
    AllTasksOk(s, s1, i);
    MakeDistinct(s, i);
    OwnedStays(s, s1, i);
    forall j: nat {:trigger Wanted(s1, j)} | j < |s1.tasks| && s1.tasks[j].phase.Idle? ensures Wanted(s1, j) {
      assert Wanted(s, j);
      WantedStays(s, s1, i, j);
    }
    TakenUpdate(s.tasks, i, s1.tasks[i]);
    MakeAccounted(s.m, Taken(s.tasks));
  }

  /** A step of task i that takes nothing out: whoever owns what is stored still does. */
  lemma OwnedStays(s: State, s1: State, i: nat)
    requires Inv(s) == true && i < |s.tasks| <= |s1.tasks| && s1.m.futures == s.m.futures
    requires forall j {:trigger s1.tasks[j]} | 0 <= j < |s.tasks| && j != i :: s1.tasks[j] == s.tasks[j]
    requires s1.tasks[i].stmt == s.tasks[i].stmt && s.tasks[i].cids <= s1.tasks[i].cids
    requires s.tasks[i].pos <= |s.tasks[i].stmt.ops| && s1.tasks[i].pos <= |s1.tasks[i].stmt.ops|
    requires At(s1.tasks[i].stmt, s1.tasks[i].pos).out == At(s.tasks[i].stmt, s.tasks[i].pos).out
    ensures forall key {:trigger Owned(s1, key)} | key in s1.m.futures :: Owned(s1, key)
  {
    forall key {:trigger Owned(s1, key)} | key in s1.m.futures ensures Owned(s1, key) {
      assert Owned(s, key);
      var j: nat, k :| Owns(s, j, k, key);
      assert Owns(s1, j, k, key);
    }
  }

  /** A context that is destroyed holds nothing. */
  lemma NothingLost(s: State, i: nat, ctx: nat)
    requires Inv(s) == true && Doing(s, i, DestroyOp(ctx))
    ensures Destroy(s.m, s.tasks[i].cids[ctx]).futures == s.m.futures
  {
    var t := s.tasks[i];
    DoingFacts(s, i, DestroyOp(ctx));
    forall key | key in s.m.futures ensures key.0 != t.cids[ctx] {
      assert Owned(s, key);
      var j: nat, k :| Owns(s, j, k, key);
      var x, y := Cid(s, j, k.0), Cid(s, i, ctx);
      assert k in At(s.tasks[j].stmt, s.tasks[j].pos).out;
    }
  }

  lemma DestroyOwn(s: State, i: nat, ctx: nat)
    requires Inv(s) == true && Doing(s, i, DestroyOp(ctx))
    ensures TaskOk(OpStep(s, i, s.tasks[i], DestroyOp(ctx)), i, OpStep(s, i, s.tasks[i], DestroyOp(ctx)).tasks[i])
  {
    var s1, t := OpStep(s, i, s.tasks[i], DestroyOp(ctx)), s.tasks[i];
    var t1, p, p1 := s1.tasks[i], At(t.stmt, t.pos), At(t.stmt, t.pos + 1);
    DoingFacts(s, i, DestroyOp(ctx));
    NothingLost(s, i, ctx);
    forall k {:trigger OutOk(s1, i, t1, k, p1.out[k])} | k in p1.out ensures OutOk(s1, i, t1, k, p1.out[k]) {
      assert OutOk(s, i, t, k, p.out[k]);
      assert s1.tasks[s.m.futures[Global(t, k)].task].stmt == s.tasks[s.m.futures[Global(t, k)].task].stmt;
    }
    forall c {:trigger c in p1.live} | c in p1.live ensures c < |t1.cids| && t1.cids[c] in s1.m.contexts {
      assert c in p.live && c != ctx;
      var x, y := Cid(s, i, c), Cid(s, i, ctx);
    }
  }

  lemma DestroyKeeps(s: State, i: nat, ctx: nat)
    requires Inv(s) == true && Doing(s, i, DestroyOp(ctx))
    ensures Inv(OpStep(s, i, s.tasks[i], DestroyOp(ctx))) == true
  {
    var s1, t := OpStep(s, i, s.tasks[i], DestroyOp(ctx)), s.tasks[i];
    DestroyOwn(s, i, ctx);
    NothingLost(s, i, ctx);
    assert t.cids[ctx] in t.cids;
    AllTasksOk(s, s1, i);
    assert TaskOk(s, i, t);
    OwnedStays(s, s1, i);
    SameCids(s, s1);
    forall j: nat {:trigger Wanted(s1, j)} | j < |s1.tasks| && s1.tasks[j].phase.Idle? ensures Wanted(s1, j) {
      assert Wanted(s, j);
      WantedStays(s, s1, i, j);
    }
    DestroyCounts(s, i, ctx);
  }

  lemma DestroyCounts(s: State, i: nat, ctx: nat)
    requires Inv(s) == true && Doing(s, i, DestroyOp(ctx))
    ensures var s1 := OpStep(s, i, s.tasks[i], DestroyOp(ctx)); Accounted(s1.m, Taken(s1.tasks)) == true
  {
    var s1 := OpStep(s, i, s.tasks[i], DestroyOp(ctx));
    NothingLost(s, i, ctx);
    TakenUpdate(s.tasks, i, s1.tasks[i]);
    DestroyAccountedIff(s.m, s.tasks[i].cids[ctx], Taken(s.tasks));
    assert Stored(s1.m) == Stored(s.m);
  }

  lemma SameCids(s: State, s1: State)
    requires Distinct(s) && |s1.tasks| == |s.tasks|
    requires forall j {:trigger s1.tasks[j]} | 0 <= j < |s.tasks| :: s1.tasks[j].cids == s.tasks[j].cids
    ensures Distinct(s1)
  {
    forall a: nat, c: nat, b: nat, d: nat {:trigger Cid(s1, a, c), Cid(s1, b, d)} |
      a < |s1.tasks| && c < |s1.tasks[a].cids| && b < |s1.tasks| && d < |s1.tasks[b].cids| && Cid(s1, a, c) == Cid(s1, b, d)
      ensures a == b && c == d
    {
      assert Cid(s, a, c) == Cid(s, b, d);
    }
  }

  /** Statements of one task that differ in their names are stored under different keys. */
  lemma KeysDiffer(s: State, i: nat, k: Local, l: Local)
    requires Distinct(s) && i < |s.tasks| && k.0 < |s.tasks[i].cids| && l.0 < |s.tasks[i].cids| && k != l
    ensures Global(s.tasks[i], k) != Global(s.tasks[i], l)
  {
    var x, y := Cid(s, i, k.0), Cid(s, i, l.0);
  }

  lemma TakeOwn(s: State, i: nat, ctx: nat, kind: Kind, id: int)
    requires Inv(s) == true && Doing(s, i, ReconOp(ctx, kind, id))
    ensures TaskOk(OpStep(s, i, s.tasks[i], ReconOp(ctx, kind, id)), i, OpStep(s, i, s.tasks[i], ReconOp(ctx, kind, id)).tasks[i])
  {
    var op, l := ReconOp(ctx, kind, id), (ctx, kind, id);
    var s1, t := OpStep(s, i, s.tasks[i], op), s.tasks[i];
    var t1, p, p1 := s1.tasks[i], At(t.stmt, t.pos), At(t.stmt, t.pos + 1);
    DoingFacts(s, i, op);
    assert Extends(s, s1);
    assert p1.out == p.out - {l} && p1.vals == p.vals + [p.out[l]];
    forall k {:trigger OutOk(s1, i, t1, k, p1.out[k])} | k in p1.out ensures OutOk(s1, i, t1, k, p1.out[k]) {
      assert OutOk(s, i, t, k, p.out[k]);
      KeysDiffer(s, i, k, l);
      assert s1.tasks[s.m.futures[Global(t, k)].task].stmt == s.tasks[s.m.futures[Global(t, k)].task].stmt;
    }
    var f := s.m.futures[Global(t, l)];
    assert OutOk(s, i, t, l, p.out[l]);
    assert s1.tasks[f.task].stmt == s.tasks[f.task].stmt;
  }

  lemma TakeOwned(s: State, i: nat, ctx: nat, kind: Kind, id: int)
    requires Inv(s) == true && Doing(s, i, ReconOp(ctx, kind, id))
    ensures var s1 := OpStep(s, i, s.tasks[i], ReconOp(ctx, kind, id));
      forall key {:trigger Owned(s1, key)} | key in s1.m.futures :: Owned(s1, key)
  {
    var s1, t := OpStep(s, i, s.tasks[i], ReconOp(ctx, kind, id)), s.tasks[i];
    forall key {:trigger Owned(s1, key)} | key in s1.m.futures ensures Owned(s1, key) {
      assert Owned(s, key);
      var j: nat, k :| Owns(s, j, k, key);
      assert j == i ==> k != (ctx, kind, id);
      assert Owns(s1, j, k, key);
    }
  }

  lemma TakeWanted(s: State, i: nat, ctx: nat, kind: Kind, id: int, j: nat)
    requires Inv(s) == true && Doing(s, i, ReconOp(ctx, kind, id)) && Wanted(s, j)
    ensures Wanted(OpStep(s, i, s.tasks[i], ReconOp(ctx, kind, id)), j)
  {
    var s1 := OpStep(s, i, s.tasks[i], ReconOp(ctx, kind, id));
    if k: nat :| Waits(s, k, j) {
      assert Waits(s1, k, j);
    } else {
      var key :| key in s.m.futures && s.m.futures[key].task == j;
      if key == KeyOf(s.tasks[i], ctx, kind, id) {
        assert Waits(s1, i, j);
      } else {
        assert s1.m.futures[key].task == j;
      }
    }
  }

  lemma TakeKeeps(s: State, i: nat, ctx: nat, kind: Kind, id: int)
    requires Inv(s) == true && Doing(s, i, ReconOp(ctx, kind, id))
    ensures Inv(OpStep(s, i, s.tasks[i], ReconOp(ctx, kind, id))) == true
  {
    var s1, t := OpStep(s, i, s.tasks[i], ReconOp(ctx, kind, id)), s.tasks[i];
    TakeOwn(s, i, ctx, kind, id);
    assert t.cids[ctx] in t.cids;
    AllTasksOk(s, s1, i);
    TakeOwned(s, i, ctx, kind, id);
    SameCids(s, s1);
    forall j: nat {:trigger Wanted(s1, j)} | j < |s1.tasks| && s1.tasks[j].phase.Idle? ensures Wanted(s1, j) {
      assert Wanted(s, j);
      TakeWanted(s, i, ctx, kind, id, j);
    }
    TakenUpdate(s.tasks, i, s1.tasks[i]);
    TakeAccounted(s.m, KeyOf(t, ctx, kind, id), Taken(s.tasks));
  }

  lemma SchedOwn(s: State, i: nat, ctx: nat, kind: Kind, id: int, body: Stmt)
    requires Inv(s) == true && Doing(s, i, SchedOp(ctx, kind, id, body))
    ensures var s1 := OpStep(s, i, s.tasks[i], SchedOp(ctx, kind, id, body));
      TaskOk(s1, i, s1.tasks[i])
  {
    var op, l := SchedOp(ctx, kind, id, body), (ctx, kind, id);
    var s1, t := OpStep(s, i, s.tasks[i], op), s.tasks[i];
    var t1, p, p1 := s1.tasks[i], At(t.stmt, t.pos), At(t.stmt, t.pos + 1);
    DoingFacts(s, i, op);
    assert p1 == p.(out := p.out[l := Eval(body)]);
    forall k {:trigger OutOk(s1, i, t1, k, p1.out[k])} | k in p1.out ensures OutOk(s1, i, t1, k, p1.out[k]) {
      SchedOut(s, i, ctx, kind, id, body, k);
    }
    assert PhaseOk(s1, i, t1) && t1.stmt == t.stmt && t1.cids == t.cids;
    forall c {:trigger c in p1.live} | c in p1.live ensures c < |t1.cids| && t1.cids[c] in s1.m.contexts {
      assert c in p.live;
    }
  }

  /** What was out still is, and the new statement is too. */
  lemma SchedOut(s: State, i: nat, ctx: nat, kind: Kind, id: int, body: Stmt, k: Local)
    requires Inv(s) == true && Doing(s, i, SchedOp(ctx, kind, id, body)) && s.tasks[i].pos < |s.tasks[i].stmt.ops|
    requires var out := At(s.tasks[i].stmt, s.tasks[i].pos).out; k in out[(ctx, kind, id) := Eval(body)]
    ensures var s1 := OpStep(s, i, s.tasks[i], SchedOp(ctx, kind, id, body));
      OutOk(s1, i, s1.tasks[i], k, At(s.tasks[i].stmt, s.tasks[i].pos).out[(ctx, kind, id) := Eval(body)][k])
  {
    var t := s.tasks[i];
    DoingFacts(s, i, SchedOp(ctx, kind, id, body));
    if k != (ctx, kind, id) {
      assert OutOk(s, i, t, k, At(t.stmt, t.pos).out[k]);
    }
  }

  lemma SchedOwned(s: State, i: nat, ctx: nat, kind: Kind, id: int, body: Stmt)
    requires Inv(s) == true && Doing(s, i, SchedOp(ctx, kind, id, body))
    ensures var s1 := OpStep(s, i, s.tasks[i], SchedOp(ctx, kind, id, body));
      forall key {:trigger Owned(s1, key)} | key in s1.m.futures :: Owned(s1, key)
  {
    var s1, t := OpStep(s, i, s.tasks[i], SchedOp(ctx, kind, id, body)), s.tasks[i];
    forall key {:trigger Owned(s1, key)} | key in s1.m.futures ensures Owned(s1, key) {
      if key == KeyOf(t, ctx, kind, id) {
        assert Owns(s1, i, (ctx, kind, id), key);
      } else {
        assert Owned(s, key);
        var j: nat, k :| Owns(s, j, k, key);
        assert Owns(s1, j, k, key);
      }
    }
  }

  lemma SchedWanted(s: State, i: nat, ctx: nat, kind: Kind, id: int, body: Stmt, j: nat)
    requires Inv(s) == true && Doing(s, i, SchedOp(ctx, kind, id, body)) && (j < |s.tasks| ==> Wanted(s, j)) && j <= |s.tasks|
    ensures Wanted(OpStep(s, i, s.tasks[i], SchedOp(ctx, kind, id, body)), j)
  {
    var s1 := OpStep(s, i, s.tasks[i], SchedOp(ctx, kind, id, body));
    if j == |s.tasks| {
      assert s1.m.futures[KeyOf(s.tasks[i], ctx, kind, id)].task == j;
    } else if k: nat :| Waits(s, k, j) {
      assert Waits(s1, k, j);
    } else {
      var key :| key in s.m.futures && s.m.futures[key].task == j;
      assert s1.m.futures[key].task == j;
    }
  }

  lemma SchedDistinct(s: State, i: nat, ctx: nat, kind: Kind, id: int, body: Stmt)
    requires Inv(s) == true && Doing(s, i, SchedOp(ctx, kind, id, body))
    ensures Distinct(OpStep(s, i, s.tasks[i], SchedOp(ctx, kind, id, body)))
  {
    var s1 := OpStep(s, i, s.tasks[i], SchedOp(ctx, kind, id, body));
    forall a: nat, c: nat, b: nat, d: nat {:trigger Cid(s1, a, c), Cid(s1, b, d)} |
      a < |s1.tasks| && c < |s1.tasks[a].cids| && b < |s1.tasks| && d < |s1.tasks[b].cids| && Cid(s1, a, c) == Cid(s1, b, d)
      ensures a == b && c == d
    {
      assert Cid(s, a, c) == Cid(s, b, d);
    }
  }

  lemma SchedKeeps(s: State, i: nat, ctx: nat, kind: Kind, id: int, body: Stmt)
    requires Inv(s) == true && Doing(s, i, SchedOp(ctx, kind, id, body))
    ensures Inv(OpStep(s, i, s.tasks[i], SchedOp(ctx, kind, id, body))) == true
  {
    var s1 := OpStep(s, i, s.tasks[i], SchedOp(ctx, kind, id, body));
    forall j: nat {:trigger TaskOk(s1, j, s1.tasks[j])} | j < |s1.tasks| ensures TaskOk(s1, j, s1.tasks[j]) {
      SchedTask(s, i, ctx, kind, id, body, j);
    }
    SchedOwned(s, i, ctx, kind, id, body);
    SchedDistinct(s, i, ctx, kind, id, body);
    forall j: nat {:trigger Wanted(s1, j)} | j < |s1.tasks| && s1.tasks[j].phase.Idle? ensures Wanted(s1, j) {
      assert j < |s.tasks| ==> Wanted(s, j);
      SchedWanted(s, i, ctx, kind, id, body, j);
    }
    SchedCounts(s, i, ctx, kind, id, body);
  }

  lemma SchedTask(s: State, i: nat, ctx: nat, kind: Kind, id: int, body: Stmt, j: nat)
    requires Inv(s) == true && Doing(s, i, SchedOp(ctx, kind, id, body)) && j <= |s.tasks|
    ensures var s1 := OpStep(s, i, s.tasks[i], SchedOp(ctx, kind, id, body)); TaskOk(s1, j, s1.tasks[j]) == true
  {
    var s1, t := OpStep(s, i, s.tasks[i], SchedOp(ctx, kind, id, body)), s.tasks[i];
    if j == i {
      SchedOwn(s, i, ctx, kind, id, body);
    } else if j == |s.tasks| {
      DoingFacts(s, i, SchedOp(ctx, kind, id, body));
    } else {
      assert t.cids[ctx] in t.cids;
      OthersStay(s, s1, i, j);
    }
  }

  lemma SchedCounts(s: State, i: nat, ctx: nat, kind: Kind, id: int, body: Stmt)
    requires Inv(s) == true && Doing(s, i, SchedOp(ctx, kind, id, body))
    ensures var s1 := OpStep(s, i, s.tasks[i], SchedOp(ctx, kind, id, body)); Accounted(s1.m, Taken(s1.tasks)) == true
  {
    var s1, t, n := OpStep(s, i, s.tasks[i], SchedOp(ctx, kind, id, body)), s.tasks[i], |s.tasks|;
    TakenUpdate(s.tasks, i, s1.tasks[i]);
    assert s1.tasks[..n] == s.tasks[i := s1.tasks[i]];
    SchedAccounted(s.m, KeyOf(t, ctx, kind, id), n, Taken(s.tasks));
  }

  /** Every step of every task keeps the invariant. */
  lemma StepKeepsInv(s: State, i: nat)
    requires Inv(s) == true && CanStep(s, i)
    ensures Inv(Step(s, i)) == true
  {
    var t := s.tasks[i];
    match t.phase
    case Joined(_) => ReleaseKeeps(s, i);
    case Got(f) =>
      if s.tasks[f.task].phase.Finished? {
        GetKeeps(s, i);
      } else {
        StartKeeps(s, i);
      }
    case Running =>
      if !Current(t) {
        ReturnKeeps(s, i);
      } else {
        var op := t.stmt.ops[t.pos];
        assert Doing(s, i, op);
        match op
        case MakeOp => MakeKeeps(s, i);
        case SchedOp(ctx, kind, id, body) => SchedKeeps(s, i, ctx, kind, id, body);
        case ReconOp(ctx, kind, id) => TakeKeeps(s, i, ctx, kind, id);
        case DestroyOp(ctx) => DestroyKeeps(s, i, ctx);
      }
    case _ =>
  }

  // ---------------------------------------------------------------------------------------------- no deadlock

  /** A statement is not scheduled under a name that is still in use. */
  lemma NameIsFree(s: State, i: nat, k: Local)
    requires Inv(s) == true && i < |s.tasks| && s.tasks[i].pos <= |s.tasks[i].stmt.ops| && k.0 < |s.tasks[i].cids|
    requires k !in At(s.tasks[i].stmt, s.tasks[i].pos).out
    ensures Global(s.tasks[i], k) !in s.m.futures
  {
    var key := Global(s.tasks[i], k);
    if key in s.m.futures {
      assert Owned(s, key);
      var j: nat, l :| Owns(s, j, l, key);
      var x, y := Cid(s, j, l.0), Cid(s, i, k.0);
      assert false;
    }
  }

  /** The manager never throws or fails an assertion. */
  lemma AlwaysServed(s: State, i: nat)
    requires Inv(s) == true && i < |s.tasks| && s.tasks[i].phase.Running? && Current(s.tasks[i])
    ensures Served(s.m, s.tasks[i], s.tasks[i].stmt.ops[s.tasks[i].pos])
  {
    var t := s.tasks[i];
    var op, p := t.stmt.ops[t.pos], At(t.stmt, t.pos);
    assert TaskOk(s, i, t);
    OpHere(t.stmt, t.pos);
    AtFacts(t.stmt, t.pos);
    match op
    case SchedOp(ctx, kind, id, _) =>
      NameIsFree(s, i, (ctx, kind, id));
    case ReconOp(ctx, kind, id) =>
      assert OutOk(s, i, t, (ctx, kind, id), p.out[(ctx, kind, id)]);
    case _ =>
  }

  /** If a task was started and has not finished, it or one that it waits for can make a step. */
  lemma StartedMoves(s: State, i: nat) returns (j: nat)
    requires Inv(s) == true && i < |s.tasks| && !s.tasks[i].phase.Idle? && !s.tasks[i].phase.Finished?
    ensures CanStep(s, j)
    decreases |s.tasks| - i
  {
    var t := s.tasks[i];
    j := i;
    assert TaskOk(s, i, t);
    if t.phase.Running? && Current(t) {
      AlwaysServed(s, i);
    } else if t.phase.Got? && !CanStep(s, i) {
      j := StartedMoves(s, t.phase.f.task);
    }
  }

  /** As long as some task has not finished, some task can make a step. */
  lemma NoDeadlock(s: State, i: nat) returns (j: nat)
    requires Inv(s) == true && i < |s.tasks| && !s.tasks[i].phase.Finished?
    ensures CanStep(s, j)
  {
    if !s.tasks[i].phase.Idle? {
      j := StartedMoves(s, i);
    } else {
      assert Wanted(s, i);
      if k: nat :| Waits(s, k, i) {
        assert TaskOk(s, k, s.tasks[k]);
        j := k;
      } else {
        var key :| key in s.m.futures && s.m.futures[key].task == i;
        j := OwnerMoves(s, key);
      }
    }
  }

  lemma OwnerMoves(s: State, key: Key) returns (j: nat)
    requires Inv(s) == true && key in s.m.futures
    ensures CanStep(s, j)
  {
    assert Owned(s, key);
    var o: nat, k :| Owns(s, o, k, key);
    assert TaskOk(s, o, s.tasks[o]);
    assert At(s.tasks[o].stmt, |s.tasks[o].stmt.ops|).out == map[];
    assert At(s.tasks[o].stmt, 0).out == map[];
    j := StartedMoves(s, o);
  }

  // ----------------------------------------------------------------------------------------------- termination

  function PhaseWeight(p: Phase): nat {
    match p case Idle => 2 case Running => 1 case Got(_) => 3 case Joined(_) => 2 case Finished(_) => 0
  }

  function TaskWeight(t: Task): nat {
    PhaseWeight(t.phase) + if t.pos <= |t.stmt.ops| then WeightFrom(t.stmt, t.pos) else 0
  }

  function Measure(ts: seq<Task>): nat {
    if ts == [] then 0 else Measure(ts[..|ts| - 1]) + TaskWeight(ts[|ts| - 1])
  }

  lemma {:induction false} MeasureUpdate(ts: seq<Task>, i: nat, t: Task)
    requires i < |ts|
    ensures Measure(ts[i := t]) == Measure(ts) - TaskWeight(ts[i]) + TaskWeight(t)
    decreases |ts|
  {
    var n := |ts| - 1;
    if i < n {
      MeasureUpdate(ts[..n], i, t);
      assert ts[i := t][..n] == ts[..n][i := t];
    } else {
      assert ts[i := t][..n] == ts[..n];
    }
  }

  lemma OpDecreases(s: State, i: nat, op: Op)
    requires Doing(s, i, op)
    ensures Measure(OpStep(s, i, s.tasks[i], op).tasks) < Measure(s.tasks)
  {
    var s1, t, n := OpStep(s, i, s.tasks[i], op), s.tasks[i], |s.tasks|;
    var t1 := s1.tasks[i];
    var here := WeightFrom(t.stmt, t.pos);
    MeasureUpdate(s.tasks, i, t1);
    assert TaskWeight(t) == here + 1;
    match op
    case SchedOp(_, _, _, body) =>
      assert here == WeightFrom(t.stmt, t.pos + 1) + 2 + Weight(body);
      assert s1.tasks[..n] == s.tasks[i := t1];
      assert TaskWeight(s1.tasks[n]) <= Weight(body) + 1;
    case ReconOp(_, _, _) =>
      assert here == WeightFrom(t.stmt, t.pos + 1) + 4;
    case _ =>
      assert here == WeightFrom(t.stmt, t.pos + 1) + 1;
  }

  lemma StepDecreases(s: State, i: nat)
    requires Inv(s) == true && CanStep(s, i)
    ensures Measure(Step(s, i).tasks) < Measure(s.tasks)
  {
    var s1, t := Step(s, i), s.tasks[i];
    assert TaskOk(s, i, t);
    if t.phase.Running? && Current(t) {
      OpDecreases(s, i, t.stmt.ops[t.pos]);
    } else {
      var x := if t.phase.Got? && !s.tasks[t.phase.f.task].phase.Finished? then t.phase.f.task else i;
      MeasureUpdate(s.tasks, x, s1.tasks[x]);
    }
  }

  // ---------------------------------------------------------------------------------------------- whole runs

  ghost predicate Next(s: State, s1: State) {
    exists i: nat :: CanStep(s, i) && s1 == Step(s, i)
  }

  /** The states of a run of the statement root. */
  ghost predicate Run(root: Stmt, run: seq<State>) {
    |run| > 0 && Initial(run[0], root) && run[0].m.max >= 0 && forall n {:trigger run[n]} | 0 < n < |run| :: Next(run[n - 1], run[n])
  }

  lemma {:induction false} RunInv(root: Stmt, run: seq<State>, n: nat)
    requires WellFormed(root) && Run(root, run) && n < |run|
    ensures Inv(run[n]) == true && Measure(run[n].tasks) + n <= Weight(root)
    ensures |run[n].tasks| > 0 && run[n].tasks[0].stmt == root && run[n].m.max == run[0].m.max
  {
    if n == 0 {
      InitialInv(run[0], root);
      assert run[0].tasks[..0] == [];
    } else {
      RunInv(root, run, n - 1);
      var i: nat :| CanStep(run[n - 1], i) && run[n] == Step(run[n - 1], i);
      StepKeepsInv(run[n - 1], i);
      StepDecreases(run[n - 1], i);
      RootStays(run[n - 1], i);
    }
  }

  lemma RootStays(s: State, i: nat)
    requires Inv(s) == true && CanStep(s, i)
    ensures Step(s, i).tasks[0].stmt == s.tasks[0].stmt && Step(s, i).m.max == s.m.max
  {
  }

  /** Every run of a well-formed statement, with any number of threads, is of limited length; it can go on until all
      its statements have finished; then it has the value that the statement has when run in sequence, and no threads
      are counted.  Until then their number is exact and within its bounds. */
  lemma EveryRunFinishes(root: Stmt, run: seq<State>)
    requires WellFormed(root) && Run(root, run)
    ensures |run| <= Weight(root) + 1
    ensures var s := run[|run| - 1];
      && 0 <= s.m.count <= s.m.max && s.m.count == |Stored(s.m)| + Taken(s.tasks)
      && ((forall i: nat :: !CanStep(s, i)) <==> forall i {:trigger s.tasks[i]} | 0 <= i < |s.tasks| :: s.tasks[i].phase.Finished?)
      && ((forall i: nat :: !CanStep(s, i)) ==> s.tasks[0].phase == Finished(Eval(root)) && s.m.count == 0 && s.m.futures == map[])
  {
    var s := run[|run| - 1];
    RunInv(root, run, |run| - 1);
    CountInRange(s.m, Taken(s.tasks));
    if forall i: nat :: !CanStep(s, i) {
      forall i {:trigger s.tasks[i]} | 0 <= i < |s.tasks| ensures s.tasks[i].phase.Finished? {
        if !s.tasks[i].phase.Finished? {
          var j := NoDeadlock(s, i);
        }
      }
      assert TaskOk(s, 0, s.tasks[0]);
      NoneTaken(s.tasks);
      assert s.m.futures == map[] by {
        if s.m.futures != map[] {
          var key :| key in s.m.futures;
          var j := OwnerMoves(s, key);
        }
      }
    }
  }

  lemma {:induction false} NoneTaken(ts: seq<Task>)
    requires forall i | 0 <= i < |ts| :: ts[i].phase.Finished?
    ensures Taken(ts) == 0
  {
    if ts != [] {
      NoneTaken(ts[..|ts| - 1]);
    }
  }
}
