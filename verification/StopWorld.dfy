/**
 The handshake that stops the world (pthread_stop_world.c, the branch with signals): one thread stops and starts the
 others with signals, a semaphore, a count of the stops and a flag.  Every atomic access, every semaphore operation and
 every signal sent or taken is one step, and steps of different threads interleave freely.  Signals are never lost, but
 a signal that is sent while one of its kind is pending is merged with it.
 */
module StopWorld {
  import opened Collections

  /** Where a thread is: running, or in the suspend handler for the stop that it read from GC_stop_count.  Parked is in
      sigsuspend, or just before it. */
  datatype Pc =
    | Running
    | Entered
    | Loaded(my: int)
    | Posted(my: int)
    | Parked(my: int)
    | Woken(my: int)
    | Checked(my: int)

  /** last is last_stop_count; suspend and restart tell which signals are pending. */
  datatype Thread = Thread(pc: Pc, last: int, suspend: bool, restart: bool)

  /** Where the stopping thread is.  Loops over the table of threads are at index i; n is n_live_threads, m the number
      of signals that were sent again, k the number of acknowledgements waited for. */
  datatype Main =
    | Idle
    | Bumped
    | Sending(i: nat, n: int)
    | Polling(n: int)
    | Resending(i: nat, n: int, m: int)
    | Waiting(k: int, n: int)
    | Stopped
    | Starting(i: nat)

  /** absent holds the threads that GC_suspend_all and GC_start_world do not signal: finished or blocked ones, and
      those that pthread_kill does not find.  It does not change while the allocation lock is held. */
  datatype State = State(main: Main, count: int, stopped: bool, sem: int, absent: set<int>, ts: seq<Thread>)

  // ------------------------------------------------------------------------------------------------ the steps

  datatype Act =
    // of the stopping thread
    | Bump(absent: set<int>)
    | SetStopped
    | Send
    | EndSend
    | Poll
    | TimeOut
    | EndResend
    | SemWait
    | EndWait
    | BeginStart
    | SendRestart
    | EndStart
    // of thread i
    | TakeSuspend(i: nat)
    | TakeRestart(i: nat)
    | Load(i: nat)
    | Post(i: nat)
    | Store(i: nat)
    | Wake(i: nat, signalled: bool)
    | CheckFlag(i: nat)
    | CheckCount(i: nat)

  predicate OfThread(a: Act) {
    a.TakeSuspend? || a.TakeRestart? || a.Load? || a.Post? || a.Store? || a.Wake? || a.CheckFlag? || a.CheckCount?
  }

  predicate Enabled(retry: bool, s: State, a: Act) {
    if OfThread(a) then a.i < |s.ts| && ThreadEnabled(s.ts[a.i], a) else MainEnabled(retry, s, a)
  }

  predicate MainEnabled(retry: bool, s: State, a: Act) {
    match a
    case Bump(_) => s.main.Idle?
    case SetStopped => s.main.Bumped?
    case Send => (s.main.Sending? || s.main.Resending?) && s.main.i < |s.ts|
    case EndSend => s.main.Sending? && s.main.i >= |s.ts|
    case Poll => s.main.Polling? && s.sem == s.main.n
    case TimeOut => s.main.Polling? && s.sem != s.main.n
    case EndResend => s.main.Resending? && s.main.i >= |s.ts|
    case SemWait => s.main.Waiting? && s.main.k < s.main.n && s.sem > 0
    case EndWait => s.main.Waiting? && s.main.k >= s.main.n
    case BeginStart => s.main.Stopped?
    case SendRestart => s.main.Starting? && s.main.i < |s.ts|
    case EndStart => s.main.Starting? && s.main.i >= |s.ts|
    case _ => false
  }

  /** A waiting thread may wake without the signal, because of another one that is not blocked. */
  predicate ThreadEnabled(t: Thread, a: Act) {
    match a
    case TakeSuspend(_) => t.pc.Running? && t.suspend
    case TakeRestart(_) => t.pc.Running? && t.restart
    case Load(_) => t.pc.Entered?
    case Post(_) => t.pc.Loaded?
    case Store(_) => t.pc.Posted?
    case Wake(_, signalled) => t.pc.Parked? && (signalled ==> t.restart)
    case CheckFlag(_) => t.pc.Woken?
    case CheckCount(_) => t.pc.Checked?
    case _ => false
  }

  function Do(retry: bool, s: State, a: Act): State
    requires Enabled(retry, s, a)
  {
    if OfThread(a)
    then s.(ts := s.ts[a.i := DoThread(s, s.ts[a.i], a)],
            sem := if a.Post? && s.ts[a.i].last != s.ts[a.i].pc.my then s.sem + 1 else s.sem)
    else DoMain(retry, s, a)
  }

  /** The suspend handler. */
  function DoThread(s: State, t: Thread, a: Act): Thread
    requires ThreadEnabled(t, a)
  {
    match a
    case TakeSuspend(_) => t.(pc := Entered, suspend := false)
    case TakeRestart(_) => t.(restart := false)
    case Load(_) => t.(pc := Loaded(s.count))
    case Post(_) => if t.last == t.pc.my then t.(pc := Running) else t.(pc := Posted(t.pc.my))
    case Store(_) => t.(pc := Parked(t.pc.my), last := t.pc.my)
    case Wake(_, signalled) => t.(pc := Woken(t.pc.my), restart := if signalled then false else t.restart)
    case CheckFlag(_) => t.(pc := if s.stopped then Checked(t.pc.my) else Running)
    case CheckCount(_) => t.(pc := if s.count == t.pc.my then Parked(t.pc.my) else Running)
  }

  /** The loop of GC_suspend_all passes over this thread. */
  predicate Skipped(s: State, i: nat)
    requires i < |s.ts|
  {
    i in s.absent || s.ts[i].last == s.count
  }

  /** GC_stop_world, with GC_suspend_all, and GC_start_world. */
  function DoMain(retry: bool, s: State, a: Act): State
    requires MainEnabled(retry, s, a)
  {
    match a
    case Bump(absent) => s.(main := Bumped, count := s.count + 1, absent := absent)
    case SetStopped => s.(main := Sending(0, 0), stopped := true)
    case Send =>
      var i := s.main.i;
      var d := if Skipped(s, i) then 0 else 1;
      s.(main := if s.main.Sending? then Sending(i + 1, s.main.n + d) else Resending(i + 1, s.main.n, s.main.m + d),
         ts := if Skipped(s, i) then s.ts else s.ts[i := s.ts[i].(suspend := true)])
    case EndSend => s.(main := if retry then Polling(s.main.n) else Waiting(0, s.main.n))
    case Poll => s.(main := Waiting(0, s.main.n))
    case TimeOut => s.(main := Resending(0, s.main.n, 0))
    case EndResend => s.(main := Polling(if s.main.m < s.main.n - s.sem then s.sem + s.main.m else s.main.n))
    case SemWait => s.(main := Waiting(s.main.k + 1, s.main.n), sem := s.sem - 1)
    case EndWait => s.(main := Stopped)
    case BeginStart => s.(main := Starting(0), stopped := false)
    case SendRestart =>
      var i := s.main.i;
      s.(main := Starting(i + 1), ts := if i in s.absent then s.ts else s.ts[i := s.ts[i].(restart := true)])
    case EndStart => s.(main := Idle)
  }

  predicate Initial(s: State) {
    && s.main.Idle? && s.count == 0 && !s.stopped && s.sem == 0
    && forall i {:trigger s.ts[i]} | 0 <= i < |s.ts| :: s.ts[i] == Thread(Running, 0, false, false)
  }

  // -------------------------------------------------------------------------------------------- the invariant

  /** In the suspend handler for stop c, having acknowledged it. */
  predicate InHandler(t: Thread, c: int) {
    (t.pc.Posted? || t.pc.Parked? || t.pc.Woken? || t.pc.Checked?) && t.pc.my == c
  }

  /** A suspend signal has not been answered yet. */
  predicate Called(t: Thread) {
    t.suspend || t.pc.Entered? || (t.pc.Loaded? && t.pc.my != t.last)
  }

  /** No thread still has to answer a suspend signal. */
  ghost predicate Clean(s: State) {
    forall i {:trigger s.ts[i]} | 0 <= i < |s.ts| :: !Called(s.ts[i])
  }

  /** Thread i was sent a suspend signal for the current stop. */
  predicate Sent(s: State, i: nat) {
    i !in s.absent && !s.main.Bumped? && (s.main.Sending? ==> i < s.main.i)
  }

  predicate Restarting(s: State) {
    s.main.Idle? || s.main.Starting?
  }

  /** The restart of stop my was signalled to thread i. */
  predicate RestartSent(s: State, i: nat, my: int) {
    my < s.count || (my == s.count && (s.main.Idle? || (s.main.Starting? && i < s.main.i)))
  }

  /** The handler's own numbers agree, and who sleeps in it after the restart has a restart signal pending. */
  predicate HandlerOk(s: State, i: nat, t: Thread) {
    && t.last <= s.count
    && (t.pc.Loaded? ==> t.last == t.pc.my || t.pc.my == s.count)
    && (t.pc.Posted? ==> t.last < t.pc.my <= s.count && (RestartSent(s, i, t.pc.my) ==> t.restart))
    && (t.pc.Parked? ==> t.last == t.pc.my && (RestartSent(s, i, t.pc.my) ==> t.restart))
    && (t.pc.Woken? ==> t.last == t.pc.my)
    && (t.pc.Checked? ==> t.last == t.pc.my && (RestartSent(s, i, t.pc.my) ==> t.restart || t.pc.my != s.count))
  }

  predicate ThreadOk(retry: bool, s: State, i: nat, t: Thread) {
    && HandlerOk(s, i, t)
    && (if !Sent(s, i) then (s.count > 0 ==> t.last < s.count) && !InHandler(t, s.count) && !Called(t)
        else if Restarting(s) then InHandler(t, s.count) || (t.last == s.count && !t.pc.Posted?)
        else InHandler(t, s.count) || (Called(t) && t.last < s.count))
    && (!retry && Sent(s, i) && (InHandler(t, s.count) || Restarting(s)) ==> !Called(t))
    && (!retry ==> !(t.suspend && (t.pc.Entered? || t.pc.Loaded?)) && (t.pc.Loaded? ==> t.pc.my != t.last))
  }

  /** The number of threads below j that were sent for and are not in the handler. */
  function Missing(s: State, j: nat): nat
    requires j <= |s.ts|
  {
    if j == 0 then 0 else Missing(s, j - 1) + if j - 1 !in s.absent && !InHandler(s.ts[j - 1], s.count) then 1 else 0
  }

  ghost predicate CountsOk(s: State) {
    && s.sem >= 0 && s.count >= 0
    && match s.main
       case Sending(i, n) => i <= |s.ts| && n - s.sem == Missing(s, i)
       case Polling(n) => n - s.sem == Missing(s, |s.ts|)
       case Resending(i, n, m) => i <= |s.ts| && n - s.sem == Missing(s, |s.ts|) && m >= Missing(s, i)
       case Waiting(k, n) => k <= n && n - k - s.sem == Missing(s, |s.ts|)
       case Stopped => Missing(s, |s.ts|) == 0 && s.sem == 0
       case _ => s.sem == 0
  }

  ghost predicate Inv(retry: bool, s: State) {
    && (s.stopped <==> !Restarting(s) && !s.main.Bumped?)
    && (s.main.Idle? || s.count > 0)
    && (s.main.Polling? || s.main.Resending? ==> retry)
    && CountsOk(s)
    && forall i: nat {:trigger ThreadOk(retry, s, i, s.ts[i])} | i < |s.ts| :: ThreadOk(retry, s, i, s.ts[i])
  }

  /** When signals may be sent again, a stop must not begin while a thread still has to answer an earlier signal. */
  ghost predicate Careful(retry: bool, s: State, a: Act) {
    a.Bump? && retry ==> Clean(s)
  }

  lemma InitialInv(retry: bool, s: State)
    requires Initial(s)
    ensures Inv(retry, s)
  {
  }

  // ------------------------------------------------------------------------------------ every step keeps it

  /** Only thread i changed, and it is in the handler now if it was before. */
  lemma {:induction false} MissingUpdate(s: State, s1: State, i: nat, j: nat)
    requires i < |s.ts| == |s1.ts| && s1.count == s.count && s1.absent == s.absent && s1.ts == s.ts[i := s1.ts[i]]
    requires j <= |s.ts|
    requires InHandler(s.ts[i], s.count) ==> InHandler(s1.ts[i], s.count)
    ensures Missing(s1, j) == Missing(s, j) -
      if i < j && i !in s.absent && !InHandler(s.ts[i], s.count) && InHandler(s1.ts[i], s.count) then 1 else 0
    decreases j
  {
    if j > 0 {
      MissingUpdate(s, s1, i, j - 1);
    }
  }

  lemma {:induction false} MissingGrows(s: State, i: nat, j: nat)
    requires i <= j <= |s.ts|
    ensures Missing(s, i) <= Missing(s, j)
    decreases j
  {
    if i < j {
      MissingGrows(s, i, j - 1);
    }
  }

  lemma {:induction false} MissingSame(s: State, s1: State, j: nat)
    requires s1.count == s.count && s1.absent == s.absent && |s1.ts| == |s.ts| && j <= |s.ts|
    requires forall i {:trigger s1.ts[i]} | 0 <= i < |s.ts| :: s1.ts[i].pc == s.ts[i].pc
    ensures Missing(s1, j) == Missing(s, j)
    decreases j
  {
    if j > 0 {
      MissingSame(s, s1, j - 1);
    }
  }

  lemma {:induction false} NoneMissing(s: State, i: nat, j: nat)
    requires i < j <= |s.ts| && Missing(s, j) == 0
    ensures i in s.absent || InHandler(s.ts[i], s.count)
    decreases j
  {
    if i < j - 1 {
      NoneMissing(s, i, j - 1);
    }
  }

  lemma ThreadKeepsOk(retry: bool, s: State, a: Act)
    requires Inv(retry, s) && Enabled(retry, s, a) && OfThread(a)
    ensures ThreadOk(retry, Do(retry, s, a), a.i, Do(retry, s, a).ts[a.i])
  {
    assert ThreadOk(retry, s, a.i, s.ts[a.i]);
  }

  lemma ThreadKeepsCounts(retry: bool, s: State, a: Act)
    requires Inv(retry, s) && Enabled(retry, s, a) && OfThread(a)
    ensures CountsOk(Do(retry, s, a))
  {
    var s1, i := Do(retry, s, a), a.i;
    assert ThreadOk(retry, s, i, s.ts[i]);
    if InHandler(s.ts[i], s.count) ==> InHandler(s1.ts[i], s.count) {
      MissingUpdate(s, s1, i, |s.ts|);
      if s.main.Sending? || s.main.Resending? {
        MissingUpdate(s, s1, i, s.main.i);
      }
    }
  }

  lemma ThreadKeepsInv(retry: bool, s: State, a: Act)
    requires Inv(retry, s) && Enabled(retry, s, a) && OfThread(a)
    ensures Inv(retry, Do(retry, s, a))
  {
    var s1 := Do(retry, s, a);
    ThreadKeepsOk(retry, s, a);
    ThreadKeepsCounts(retry, s, a);
    forall j: nat {:trigger ThreadOk(retry, s1, j, s1.ts[j])} | j < |s1.ts| ensures ThreadOk(retry, s1, j, s1.ts[j]) {
      if j != a.i {
        assert ThreadOk(retry, s, j, s.ts[j]);
      }
    }
  }

  lemma MainKeepsOk(retry: bool, s: State, a: Act, j: nat)
    requires Inv(retry, s) && Enabled(retry, s, a) && !OfThread(a) && Careful(retry, s, a) && j < |s.ts|
    ensures ThreadOk(retry, Do(retry, s, a), j, Do(retry, s, a).ts[j])
  {
    assert ThreadOk(retry, s, j, s.ts[j]);
    if s.main.Stopped? {
      NoneMissing(s, j, |s.ts|);
    }
  }

  lemma MainKeepsCounts(retry: bool, s: State, a: Act)
    requires Inv(retry, s) && Enabled(retry, s, a) && !OfThread(a)
    ensures CountsOk(Do(retry, s, a))
  {
    var s1 := Do(retry, s, a);
    if a.Send? {
      assert ThreadOk(retry, s, s.main.i, s.ts[s.main.i]);
      MissingSame(s, s1, s.main.i);
    }
    if !a.Bump? {
      MissingSame(s, s1, |s.ts|);
    }
  }

  lemma MainKeepsInv(retry: bool, s: State, a: Act)
    requires Inv(retry, s) && Enabled(retry, s, a) && !OfThread(a) && Careful(retry, s, a)
    ensures Inv(retry, Do(retry, s, a))
  {
    var s1 := Do(retry, s, a);
    MainKeepsCounts(retry, s, a);
    forall j: nat {:trigger ThreadOk(retry, s1, j, s1.ts[j])} | j < |s1.ts| ensures ThreadOk(retry, s1, j, s1.ts[j]) {
      MainKeepsOk(retry, s, a, j);
    }
  }

  // ---------------------------------------------------------------------------------------------- whole runs

  ghost predicate Step(retry: bool, careful: bool, s: State, a: Act, t: State) {
    Enabled(retry, s, a) && (careful ==> Careful(retry, s, a)) && t == Do(retry, s, a)
  }

  lemma StepInv(retry: bool, careful: bool, s: State, a: Act, t: State)
    requires Inv(retry, s) == true && Step(retry, careful, s, a, t) && (retry ==> careful)
    ensures Inv(retry, t) == true
  {
    if OfThread(a) {
      ThreadKeepsInv(retry, s, a);
    } else {
      MainKeepsInv(retry, s, a);
    }
  }

  ghost predicate Next(retry: bool, careful: bool, s: State, t: State) {
    exists a :: Step(retry, careful, s, a, t)
  }

  ghost predicate StepAt(retry: bool, careful: bool, run: seq<State>, n: int)
    requires 0 < n < |run|
  {
    Next(retry, careful, run[n - 1], run[n])
  }

  /** Successive states; if careful, no stop begins while an earlier signal is unanswered. */
  ghost predicate Path(retry: bool, careful: bool, run: seq<State>) {
    |run| > 0 && forall n {:trigger StepAt(retry, careful, run, n)} | 0 < n < |run| :: StepAt(retry, careful, run, n)
  }

  /** The states of a run. */
  ghost predicate Run(retry: bool, careful: bool, run: seq<State>) {
    Path(retry, careful, run) && Initial(run[0])
  }

  lemma RunInv(retry: bool, careful: bool, run: seq<State>, n: nat)
    requires Run(retry, careful, run) && n < |run| && (retry ==> careful)
    ensures Inv(retry, run[n]) == true
  {
    InitialInv(retry, run[0]);
    PathInv(retry, careful, run, n);
  }

  lemma {:induction false} PathInv(retry: bool, careful: bool, run: seq<State>, n: nat)
    requires Path(retry, careful, run) && Inv(retry, run[0]) == true && n < |run| && (retry ==> careful)
    ensures Inv(retry, run[n]) == true
  {
    if n > 0 {
      PathInv(retry, careful, run, n - 1);
      assert StepAt(retry, careful, run, n);
      var a :| Step(retry, careful, run[n - 1], a, run[n]);
      StepInv(retry, careful, run[n - 1], a, run[n]);
    }
  }

  /** When GC_stop_world has returned, until GC_start_world begins, every thread that was signalled is in its handler.
      This holds of every run without repeated signals, and otherwise of every run in which no stop begins while a
      thread still has to answer an earlier signal. */
  lemma StoppedMeansParked(retry: bool, careful: bool, run: seq<State>, n: nat, i: nat)
    requires Run(retry, careful, run) && n < |run| && (retry ==> careful)
    requires run[n].main.Stopped? && i < |run[n].ts| && i !in run[n].absent
    ensures InHandler(run[n].ts[i], run[n].count)
  {
    RunInv(retry, careful, run, n);
    NoneMissing(run[n], i, |run[n].ts|);
  }

  /** Without repeated signals every signal is answered by the time the world is restarted. */
  lemma CleanWhenIdle(s: State)
    requires Inv(false, s) && s.main.Idle?
    ensures Clean(s)
  {
    forall i {:trigger s.ts[i]} | 0 <= i < |s.ts| ensures !Called(s.ts[i]) {
      assert ThreadOk(false, s, i, s.ts[i]);
    }
  }

  /** The step from s to t takes thread i out of the handler for stop c although the restart has not begun. */
  predicate LeavesEarly(s: State, t: State, i: nat, c: int) {
    && i < |s.ts| && i < |t.ts| && InHandler(s.ts[i], c) && !InHandler(t.ts[i], c)
    && !(c < s.count || (c == s.count && Restarting(s)))
  }

  /** Under the invariant, which careful runs and runs without repeated signals keep, a thread leaves the handler for a
      stop only after its restart began, perhaps when the next stop already has. */
  lemma LeavesAfterRestart(retry: bool, s: State, a: Act, my: int)
    requires Inv(retry, s) && Enabled(retry, s, a) && OfThread(a) && InHandler(s.ts[a.i], my)
    requires !InHandler(Do(retry, s, a).ts[a.i], my)
    ensures my < s.count || (my == s.count && Restarting(s))
  {
    assert ThreadOk(retry, s, a.i, s.ts[a.i]);
  }

  lemma NeverEarly(retry: bool, s: State, a: Act, i: nat, c: int)
    requires Inv(retry, s) == true && Enabled(retry, s, a)
    ensures !LeavesEarly(s, Do(retry, s, a), i, c)
  {
    var t := Do(retry, s, a);
    if LeavesEarly(s, t, i, c) {
      assert OfThread(a) && a.i == i;
      LeavesAfterRestart(retry, s, a, c);
    }
  }

  /** The same of every step of such a run. */
  lemma NobodyLeavesEarly(retry: bool, careful: bool, run: seq<State>, n: nat, i: nat, c: int)
    requires Run(retry, careful, run) && 0 < n < |run| && (retry ==> careful)
    ensures !LeavesEarly(run[n - 1], run[n], i, c)
  {
    RunInv(retry, careful, run, n - 1);
    assert StepAt(retry, careful, run, n);
    var a :| Step(retry, careful, run[n - 1], a, run[n]);
    NeverEarly(retry, run[n - 1], a, i, c);
  }

  /** No thread sleeps on: after its restart it has a restart signal pending, or does not go back to sleep. */
  lemma SleeperIsWoken(retry: bool, s: State, i: nat, my: int)
    requires Inv(retry, s) && i < |s.ts| && InHandler(s.ts[i], my) && RestartSent(s, i, my)
    ensures s.ts[i].pc.Posted? || s.ts[i].pc.Parked? ==> s.ts[i].restart
    ensures s.ts[i].pc.Checked? ==> s.ts[i].restart || s.count != my
  {
    assert ThreadOk(retry, s, i, s.ts[i]);
  }

  /** The branch of GC_stop_world that gives up on lost threads is never taken. */
  lemma NoThreadIsLost(retry: bool, s: State)
    requires Inv(retry, s) && Enabled(retry, s, EndResend)
    ensures s.main.m >= s.main.n - s.sem
  {
  }

  lemma {:induction false} SomeMissing(s: State, j: nat) returns (i: nat)
    requires j <= |s.ts| && Missing(s, j) > 0
    ensures i < j && i !in s.absent && !InHandler(s.ts[i], s.count)
    decreases j
  {
    if j - 1 !in s.absent && !InHandler(s.ts[j - 1], s.count) {
      i := j - 1;
    } else {
      i := SomeMissing(s, j - 1);
    }
  }

  /** Thread i can go on, and not just because it was woken by chance. */
  ghost predicate CanMove(retry: bool, s: State, i: nat)
    requires i < |s.ts|
  {
    exists a :: OfThread(a) && a.i == i && Enabled(retry, s, a) && (a.Wake? ==> a.signalled)
  }

  /** While the stopping thread waits for acknowledgements that are not there, a thread that has not acknowledged can
      go on. */
  lemma NoDeadlock(retry: bool, s: State) returns (i: nat)
    requires Inv(retry, s) && s.sem == 0
    requires match s.main case Waiting(k, n) => k < n case Polling(n) => n > 0 case _ => false
    ensures i < |s.ts| && CanMove(retry, s, i) && i !in s.absent && !InHandler(s.ts[i], s.count)
  {
    i := SomeMissing(s, |s.ts|);
    var t := s.ts[i];
    assert ThreadOk(retry, s, i, t);
    var a := match t.pc
      case Running => TakeSuspend(i)
      case Entered => Load(i)
      case Loaded(_) => Post(i)
      case Posted(_) => Store(i)
      case Parked(_) => Wake(i, true)
      case Woken(_) => CheckFlag(i)
      case Checked(_) => CheckCount(i);
    assert OfThread(a) && a.i == i && Enabled(retry, s, a);
  }

  /** The signals have been sent, and the stopping thread waits. */
  predicate Awaiting(s: State) {
    s.main.Polling? || s.main.Resending? || s.main.Waiting?
  }

  /** The most steps that a thread can take until it acknowledges stop c. */
  function StepsLeft(t: Thread, c: int): nat {
    if InHandler(t, c) then 0
    else (match t.pc
          case Posted(_) => 8
          case Parked(_) => 7
          case Woken(_) => 6
          case Checked(_) => 5
          case Running => 4
          case Entered => 3
          case Loaded(my) => if my == t.last then 5 else 2) + if t.restart then 1 else 0
  }

  function Remaining(s: State, j: nat): nat
    requires j <= |s.ts|
  {
    if j == 0 then 0 else Remaining(s, j - 1) + if j - 1 in s.absent then 0 else StepsLeft(s.ts[j - 1], s.count)
  }

  lemma {:induction false} RemainingFalls(s: State, s1: State, i: nat, j: nat)
    requires j <= |s.ts| == |s1.ts| && s1.count == s.count && s1.absent == s.absent
    requires forall k {:trigger s1.ts[k]} | 0 <= k < |s.ts| && k !in s.absent ::
               StepsLeft(s1.ts[k], s.count) <= StepsLeft(s.ts[k], s.count)
    ensures Remaining(s1, j) <= Remaining(s, j)
    ensures i < j && i !in s.absent && StepsLeft(s1.ts[i], s.count) < StepsLeft(s.ts[i], s.count) ==>
              Remaining(s1, j) < Remaining(s, j)
    decreases j
  {
    if j > 0 {
      RemainingFalls(s, s1, i, j - 1);
    }
  }

  lemma FewerStepsLeft(retry: bool, s: State, a: Act, k: nat)
    requires Inv(retry, s) == true && Enabled(retry, s, a) && Awaiting(s) && k < |s.ts| && k !in s.absent
    ensures var t := Do(retry, s, a);
      if OfThread(a) && a.i == k && !InHandler(s.ts[k], s.count) then StepsLeft(t.ts[k], s.count) < StepsLeft(s.ts[k], s.count)
      else StepsLeft(t.ts[k], s.count) <= StepsLeft(s.ts[k], s.count)
  {
    assert ThreadOk(retry, s, k, s.ts[k]);
  }

  /** While acknowledgements are awaited, every step of a thread that has not acknowledged brings the end nearer, and no
      other step, of whichever thread, takes it further away.  With NoDeadlock, the stop is over after no more than
      Remaining such steps. */
  lemma StopProgress(retry: bool, s: State, a: Act)
    requires Inv(retry, s) && Enabled(retry, s, a) && Awaiting(s)
    ensures var t := Do(retry, s, a);
      && |t.ts| == |s.ts| && Remaining(t, |t.ts|) <= Remaining(s, |s.ts|)
      && (OfThread(a) && a.i !in s.absent && !InHandler(s.ts[a.i], s.count) ==> Remaining(t, |t.ts|) < Remaining(s, |s.ts|))
  {
    var t := Do(retry, s, a);
    forall k {:trigger t.ts[k]} | 0 <= k < |s.ts| && k !in s.absent
      ensures StepsLeft(t.ts[k], s.count) <= StepsLeft(s.ts[k], s.count)
    {
      FewerStepsLeft(retry, s, a, k);
    }
    if OfThread(a) && a.i !in s.absent {
      FewerStepsLeft(retry, s, a, a.i);
    }
    RemainingFalls(s, t, if OfThread(a) then a.i else 0, |s.ts|);
  }

  // --------------------------------------------------------------------------- repeated signals can do harm

  ghost predicate PathTo(run: seq<State>, s0: State, s: State) {
    Path(true, false, run) && run[0] == s0 && run[|run| - 1] == s
  }

  lemma Go(run: seq<State>, s0: State, s: State, a: Act, s1: State) returns (run1: seq<State>)
    requires PathTo(run, s0, s) == true && Enabled(true, s, a) && Do(true, s, a) == s1
    ensures PathTo(run1, s0, s1) == true && run1 == run + [s1]
  {
    run1 := run + [s1];
    assert Step(true, false, run1[|run| - 1], a, run1[|run|]);
    forall n {:trigger StepAt(true, false, run1, n)} | 0 < n < |run1| ensures StepAt(true, false, run1, n) {
      if n < |run| {
        assert StepAt(true, false, run, n);
      }
    }
  }

  /** From state run[0] a stop begins, and no other. */
  ghost predicate OneStop(run: seq<State>) {
    Path(true, false, run) && forall n {:trigger run[n]} | 0 < n < |run| :: run[n].count == run[0].count + 1
  }

  /** If the world is stopped, all threads that were signalled are in their handlers. */
  ghost predicate Parks(s: State) {
    s.main.Stopped? ==> forall i {:trigger s.ts[i]} | 0 <= i < |s.ts| && i !in s.absent :: InHandler(s.ts[i], s.count)
  }

  /** The last step of the run takes no thread out of its handler before the restart has begun. */
  ghost predicate HoldsBack(run: seq<State>) {
    |run| > 1 ==> NoneLeaves(run[|run| - 2], run[|run| - 1])
  }

  ghost predicate NoneLeaves(s: State, t: State) {
    forall i: nat, c: int :: !LeavesEarly(s, t, i, c)
  }

  /** With repeated signals, a stop that begins in state s keeps the handshake, in all runs, if and only if no thread
      still has to answer an earlier signal: then the world is stopped only when all threads that were signalled are in
      their handlers, and none leaves before the restart has begun. */
  lemma HandshakeIffClean(s: State)
    requires Inv(true, s) == true && s.main.Idle?
    ensures Clean(s) <==>
      forall run {:trigger OneStop(run)} | OneStop(run) && run[0] == s :: Parks(run[|run| - 1]) && HoldsBack(run)
  {
    if Clean(s) {
      forall run {:trigger OneStop(run)} | OneStop(run) && run[0] == s ensures Parks(run[|run| - 1]) && HoldsBack(run) {
        CleanIsSafe(run);
        CleanHoldsBack(run);
      }
    } else {
      var i :| 0 <= i < |s.ts| && Called(s.ts[i]);
      var run, t, p := UnansweredLeaves(s, i);
      assert run[0] == s && LeavesEarly(p, t, i, s.count + 1);
      assert !NoneLeaves(p, t);
    }
  }

  /** With at least two threads the first half alone fails unless no thread still has to answer. */
  lemma SafeIffClean(s: State)
    requires Inv(true, s) == true && s.main.Idle? && |s.ts| >= 2
    ensures Clean(s) <==> forall run {:trigger OneStop(run)} | OneStop(run) && run[0] == s :: Parks(run[|run| - 1])
  {
    if Clean(s) {
      forall run {:trigger OneStop(run)} | OneStop(run) && run[0] == s ensures Parks(run[|run| - 1]) {
        CleanIsSafe(run);
      }
    } else {
      var i :| 0 <= i < |s.ts| && Called(s.ts[i]);
      var j := if i == 0 then 1 else 0;
      var run, t := UnansweredIsFatal(s, i, j);
      assert t == run[|run| - 1] && !Parks(t);
    }
  }

  /** Another step of a stop. */
  lemma GoOn(run: seq<State>, s0: State, s: State, a: Act, s1: State) returns (run1: seq<State>)
    requires OneStop(run) == true && PathTo(run, s0, s) == true && Enabled(true, s, a) && Do(true, s, a) == s1
    requires s1.count == s0.count + 1
    ensures OneStop(run1) == true && PathTo(run1, s0, s1) == true && |run1| > 1 && run1[|run1| - 2] == s
  {
    run1 := Go(run, s0, s, a, s1);
    forall n {:trigger run1[n]} | 0 < n < |run1| ensures run1[n].count == run1[0].count + 1 {
      if n < |run| {
        assert run1[n] == run[n];
      }
    }
  }

  /** State s with another thread i and semaphore value. */
  function With(s: State, i: nat, t: Thread, sem: int): State
    requires i < |s.ts|
  {
    s.(ts := s.ts[i := t], sem := sem)
  }

  function Rank(pc: Pc): nat {
    match pc case Posted(_) => 4 case Parked(_) => 3 case Woken(_) => 2 case Running => 0 case _ => 1
  }

  /** A thread in the handler for an earlier stop, or there because of a superfluous signal, leaves it. */
  lemma LeaveOld(run: seq<State>, s0: State, s: State, i: nat, t: Thread) returns (run1: seq<State>, t1: Thread)
    requires OneStop(run) == true && i < |s.ts| && PathTo(run, s0, With(s, i, t, 0)) == true
    requires s.main.Bumped? && !s.stopped && s.count == s0.count + 1 && t.last < s.count && t.suspend
    requires !t.pc.Entered? && (t.pc.Loaded? ==> t.pc.my == t.last)
    requires !t.pc.Entered? && !t.pc.Running? ==> t.pc.my < s.count
    requires t.pc.Posted? || t.pc.Parked? ==> t.restart
    ensures OneStop(run1) == true && PathTo(run1, s0, With(s, i, t1, 0)) == true
    ensures t1.pc.Running? && t1.suspend && t1.last < s.count
    decreases Rank(t.pc)
  {
    if t.pc.Running? {
      run1, t1 := run, t;
    } else {
      var a := match t.pc
        case Loaded(_) => Post(i)
        case Posted(_) => Store(i)
        case Parked(_) => Wake(i, true)
        case Woken(_) => CheckFlag(i)
        case Checked(_) => CheckCount(i);
      var p := With(s, i, t, 0);
      t1 := DoThread(p, t, a);
      run1 := GoOn(run, s0, p, a, With(s, i, t1, 0));
      run1, t1 := LeaveOld(run1, s0, s, i, t1);
    }
  }

  /** The thread answers, and parks. */
  lemma Answer(run: seq<State>, s0: State, s: State, i: nat, t: Thread) returns (run1: seq<State>, t1: Thread)
    requires OneStop(run) == true && i < |s.ts| && PathTo(run, s0, With(s, i, t, 0)) == true
    requires s.count == s0.count + 1 && t.last < s.count && ((t.pc.Running? && t.suspend) || t.pc.Entered?)
    ensures OneStop(run1) == true && PathTo(run1, s0, With(s, i, t1, 1)) == true && t1.last == s.count && t1.pc == Parked(s.count)
  {
    var c := s.count;
    run1, t1 := run, t;
    if t.pc.Running? {
      t1 := t.(pc := Entered, suspend := false);
      run1 := GoOn(run1, s0, With(s, i, t, 0), TakeSuspend(i), With(s, i, t1, 0));
    }
    run1 := GoOn(run1, s0, With(s, i, t1, 0), Load(i), With(s, i, t1.(pc := Loaded(c)), 0));
    run1 := GoOn(run1, s0, With(s, i, t1.(pc := Loaded(c)), 0), Post(i), With(s, i, t1.(pc := Posted(c)), 1));
    run1 := GoOn(run1, s0, With(s, i, t1.(pc := Posted(c)), 1), Store(i), With(s, i, t1.(pc := Parked(c), last := c), 1));
    t1 := t1.(pc := Parked(c), last := c);
  }

  /** GC_suspend_all signals only thread j, and does not count thread i. */
  lemma SendAll(run: seq<State>, s0: State, s: State, i: nat, j: nat) returns (run1: seq<State>, s1: State)
    requires OneStop(run) == true && PathTo(run, s0, s) == true && s.count == s0.count + 1
    requires s.main.Sending? && s.main.i <= |s.ts| && s.main.n == (if j < s.main.i then 1 else 0)
    requires i < |s.ts| && j < |s.ts| && s.ts[i].last == s.count && j !in s.absent && s.ts[j].last < s.count
    requires (forall k | 0 <= k < |s.ts| && k != i && k != j :: k in s.absent) && !InHandler(s.ts[j], s.count)
    ensures OneStop(run1) == true && PathTo(run1, s0, s1) == true
    ensures |s1.ts| == |s.ts| && s1 == s.(main := Sending(|s.ts|, 1), ts := s1.ts) && !InHandler(s1.ts[j], s1.count)
    decreases |s.ts| - s.main.i
  {
    if s.main.i == |s.ts| {
      run1, s1 := run, s;
    } else {
      s1 := Do(true, s, Send);
      run1 := GoOn(run, s0, s, Send, s1);
      run1, s1 := SendAll(run1, s0, s1, i, j);
    }
  }

  /** One acknowledgement is enough for the stop to be over. */
  lemma Finish(run: seq<State>, s0: State, s: State) returns (run1: seq<State>, s1: State)
    requires OneStop(run) == true && PathTo(run, s0, s) == true && s.count == s0.count + 1
    requires s.main == Sending(|s.ts|, 1) && s.sem == 1
    ensures OneStop(run1) == true && PathTo(run1, s0, s1) == true && s1 == s.(main := Stopped, sem := 0)
  {
    run1 := GoOn(run, s0, s, EndSend, s.(main := Polling(1)));
    run1 := GoOn(run1, s0, s.(main := Polling(1)), Poll, s.(main := Waiting(0, 1)));
    run1 := GoOn(run1, s0, s.(main := Waiting(0, 1)), SemWait, s.(main := Waiting(1, 1), sem := 0));
    s1 := s.(main := Stopped, sem := 0);
    run1 := GoOn(run1, s0, s.(main := Waiting(1, 1), sem := 0), EndWait, s1);
  }

  /** If thread i still has to answer a signal when a stop begins, its answer can be taken for that of thread j. */
  lemma UnansweredIsFatal(s: State, i: nat, j: nat) returns (run: seq<State>, t: State)
    requires Inv(true, s) == true && s.main.Idle? && i < |s.ts| && j < |s.ts| && i != j && Called(s.ts[i])
    ensures OneStop(run) == true && PathTo(run, s, t) == true
    ensures t.main.Stopped? && |t.ts| == |s.ts| && j !in t.absent && !InHandler(t.ts[j], t.count)
  {
    assert ThreadOk(true, s, i, s.ts[i]) && ThreadOk(true, s, j, s.ts[j]);
    var s1, th;
    run, s1, th := BumpAndAnswer(s, i, Interval(0, |s.ts|) - {i, j});
    var s2 := With(s1, i, th, 1);
    var s3 := s2.(main := Sending(0, 0), stopped := true);
    run := GoOn(run, s, s2, SetStopped, s3);
    run, s3 := SendAll(run, s, s3, i, j);
    run, t := Finish(run, s, s3);
  }

  /** If thread i still has to answer a signal when a stop begins, it can answer, park, be woken by chance and leave
      before the flag is set. */
  lemma UnansweredLeaves(s: State, i: nat) returns (run: seq<State>, t: State, p: State)
    requires Inv(true, s) == true && s.main.Idle? && i < |s.ts| && Called(s.ts[i])
    ensures OneStop(run) == true && PathTo(run, s, t) == true && |run| > 1 && run[|run| - 2] == p
    ensures LeavesEarly(p, t, i, s.count + 1) && t.main.Bumped?
  {
    var c := s.count + 1;
    var s1, th;
    run, s1, th := BumpAndAnswer(s, i, {});
    var p0 := With(s1, i, th, 1);
    p := With(s1, i, th.(pc := Woken(c)), 1);
    t := With(s1, i, th.(pc := Running), 1);
    run := GoOn(run, s, p0, Wake(i, false), p);
    run := GoOn(run, s, p, CheckFlag(i), t);
  }

  /** A stop begins, and thread i, which still has to answer an earlier signal, answers it. */
  lemma BumpAndAnswer(s: State, i: nat, absent: set<int>) returns (run: seq<State>, s1: State, th: Thread)
    requires Inv(true, s) == true && s.main.Idle? && i < |s.ts| && Called(s.ts[i])
    ensures s1 == s.(main := Bumped, count := s.count + 1, absent := absent) && !s1.stopped
    ensures OneStop(run) == true && PathTo(run, s, With(s1, i, th, 1)) == true
    ensures th.last == s1.count && th.pc == Parked(s1.count)
  {
    assert ThreadOk(true, s, i, s.ts[i]);
    run := [s];
    th := s.ts[i];
    s1 := Do(true, s, Bump(absent));
    assert With(s1, i, th, 0) == s1;
    run := GoOn(run, s, s, Bump(absent), s1);
    if !th.pc.Entered? {
      run, th := LeaveOld(run, s, s1, i, th);
    }
    run, th := Answer(run, s, s1, i, th);
  }

  lemma CarefulFromClean(run: seq<State>)
    requires OneStop(run) && Clean(run[0])
    ensures Path(true, true, run)
  {
    forall n {:trigger StepAt(true, true, run, n)} | 0 < n < |run| ensures StepAt(true, true, run, n) {
      assert StepAt(true, false, run, n);
      var a :| Step(true, false, run[n - 1], a, run[n]);
      assert n > 1 ==> run[n - 1].count == run[n].count;
      assert Step(true, true, run[n - 1], a, run[n]);
    }
  }

  lemma StepHoldsBack(s: State, a: Act)
    requires Inv(true, s) == true && Enabled(true, s, a)
    ensures NoneLeaves(s, Do(true, s, a))
  {
    forall i: nat, c: int ensures !LeavesEarly(s, Do(true, s, a), i, c) {
      NeverEarly(true, s, a, i, c);
    }
  }

  lemma CleanHoldsBack(run: seq<State>)
    requires OneStop(run) && Inv(true, run[0]) == true && run[0].main.Idle? && Clean(run[0])
    ensures HoldsBack(run)
  {
    var n := |run| - 1;
    if n > 0 {
      CarefulFromClean(run);
      PathInv(true, true, run, n - 1);
      assert StepAt(true, true, run, n);
      var a :| Step(true, true, run[n - 1], a, run[n]);
      StepHoldsBack(run[n - 1], a);
    }
  }

  lemma CleanIsSafe(run: seq<State>)
    requires OneStop(run) && Inv(true, run[0]) == true && run[0].main.Idle? && Clean(run[0])
    ensures Parks(run[|run| - 1])
  {
    CarefulFromClean(run);
    PathInv(true, true, run, |run| - 1);
    var t := run[|run| - 1];
    if t.main.Stopped? {
      forall i {:trigger t.ts[i]} | 0 <= i < |t.ts| && i !in t.absent ensures InHandler(t.ts[i], t.count) {
        NoneMissing(t, i, |t.ts|);
      }
    }
  }

  /** With repeated signals, and none lost, GC_stop_world can return while a signalled thread runs: two threads and two
      stops are enough.  In the first stop thread 0 acknowledges but has not stored the stop number when the signals
      are repeated.  It answers the superfluous signal in the second stop before GC_suspend_all gets to it; its
      acknowledgement is then taken for that of thread 1. */
  lemma RepeatedSignalsCanFail() returns (run: seq<State>)
    ensures Run(true, false, run)
    ensures var s := run[|run| - 1];
      s.main.Stopped? && |s.ts| == 2 && s.absent == {} && s.ts[1].pc.Running? && s.ts[1].suspend
  {
    var s0 := State(Idle, 0, false, 0, {}, [Thread(Running, 0, false, false), Thread(Running, 0, false, false)]);
    run := [s0];
    assert PathTo(run, s0, s0) == true;
    run := FirstStopSignals(run, s0);
    run := FirstStopAnswers(run, s0);
    run := FirstStopReturns(run, s0);
    run := FirstRestart(run, s0);
    run := SecondStopSurplus(run, s0);
    run := SecondStopReturns(run, s0);
    assert PathTo(run, s0, State(Stopped, 2, true, 0, {}, [Thread(Parked(2), 2, false, false), Thread(Running, 1, true, false)]));
  }

  /** In the same way a thread can leave the handler for the second stop before that is even under way: after the first
      stop of the run above, thread 0 answers the superfluous signal as soon as the stops were counted, and is woken
      by chance. */
  lemma RepeatedSignalsLeaveEarly() returns (run: seq<State>)
    ensures Run(true, false, run) && |run| > 1
    ensures LeavesEarly(run[|run| - 2], run[|run| - 1], 0, 2) && run[|run| - 1].main.Bumped?
  {
    var s0 := State(Idle, 0, false, 0, {}, [Thread(Running, 0, false, false), Thread(Running, 0, false, false)]);
    run := [s0];
    assert PathTo(run, s0, s0) == true;
    run := FirstStopSignals(run, s0);
    run := FirstStopAnswers(run, s0);
    run := FirstStopReturns(run, s0);
    run := FirstRestart(run, s0);
    run := SecondStopLeft(run, s0);
  }

  lemma SecondStopLeft(run0: seq<State>, s0: State) returns (run: seq<State>)
    requires PathTo(run0, s0, State(Idle, 1, false, 0, {}, [Thread(Running, 1, true, false), Thread(Running, 1, false, false)])) == true
    ensures PathTo(run, s0, State(Bumped, 2, false, 1, {}, [Thread(Running, 2, false, false), Thread(Running, 1, false, false)])) == true
    ensures |run| > 1 && run[|run| - 2] == State(Bumped, 2, false, 1, {}, [Thread(Woken(2), 2, false, false), Thread(Running, 1, false, false)])
  {
    run := run0;
    run := Go(run, s0, State(Idle, 1, false, 0, {}, [Thread(Running, 1, true, false), Thread(Running, 1, false, false)]), Bump({}),
      State(Bumped, 2, false, 0, {}, [Thread(Running, 1, true, false), Thread(Running, 1, false, false)]));
    run := Go(run, s0, State(Bumped, 2, false, 0, {}, [Thread(Running, 1, true, false), Thread(Running, 1, false, false)]), TakeSuspend(0),
      State(Bumped, 2, false, 0, {}, [Thread(Entered, 1, false, false), Thread(Running, 1, false, false)]));
    run := Go(run, s0, State(Bumped, 2, false, 0, {}, [Thread(Entered, 1, false, false), Thread(Running, 1, false, false)]), Load(0),
      State(Bumped, 2, false, 0, {}, [Thread(Loaded(2), 1, false, false), Thread(Running, 1, false, false)]));
    run := Go(run, s0, State(Bumped, 2, false, 0, {}, [Thread(Loaded(2), 1, false, false), Thread(Running, 1, false, false)]), Post(0),
      State(Bumped, 2, false, 1, {}, [Thread(Posted(2), 1, false, false), Thread(Running, 1, false, false)]));
    run := Go(run, s0, State(Bumped, 2, false, 1, {}, [Thread(Posted(2), 1, false, false), Thread(Running, 1, false, false)]), Store(0),
      State(Bumped, 2, false, 1, {}, [Thread(Parked(2), 2, false, false), Thread(Running, 1, false, false)]));
    run := Go(run, s0, State(Bumped, 2, false, 1, {}, [Thread(Parked(2), 2, false, false), Thread(Running, 1, false, false)]), Wake(0, false),
      State(Bumped, 2, false, 1, {}, [Thread(Woken(2), 2, false, false), Thread(Running, 1, false, false)]));
    run := Go(run, s0, State(Bumped, 2, false, 1, {}, [Thread(Woken(2), 2, false, false), Thread(Running, 1, false, false)]), CheckFlag(0),
      State(Bumped, 2, false, 1, {}, [Thread(Running, 2, false, false), Thread(Running, 1, false, false)]));
  }

  /** Both threads are signalled; thread 0 posts, and both are signalled again. */
  lemma FirstStopSignals(run0: seq<State>, s0: State) returns (run: seq<State>)
    requires PathTo(run0, s0, State(Idle, 0, false, 0, {}, [Thread(Running, 0, false, false), Thread(Running, 0, false, false)])) == true
    ensures PathTo(run, s0, State(Polling(2), 1, true, 1, {}, [Thread(Posted(1), 0, true, false), Thread(Running, 0, true, false)])) == true
  {
    run := run0;
    run := Go(run, s0, State(Idle, 0, false, 0, {}, [Thread(Running, 0, false, false), Thread(Running, 0, false, false)]), Bump({}),
      State(Bumped, 1, false, 0, {}, [Thread(Running, 0, false, false), Thread(Running, 0, false, false)]));
    run := Go(run, s0, State(Bumped, 1, false, 0, {}, [Thread(Running, 0, false, false), Thread(Running, 0, false, false)]), SetStopped,
      State(Sending(0, 0), 1, true, 0, {}, [Thread(Running, 0, false, false), Thread(Running, 0, false, false)]));
    run := Go(run, s0, State(Sending(0, 0), 1, true, 0, {}, [Thread(Running, 0, false, false), Thread(Running, 0, false, false)]), Send,
      State(Sending(1, 1), 1, true, 0, {}, [Thread(Running, 0, true, false), Thread(Running, 0, false, false)]));
    run := Go(run, s0, State(Sending(1, 1), 1, true, 0, {}, [Thread(Running, 0, true, false), Thread(Running, 0, false, false)]), Send,
      State(Sending(2, 2), 1, true, 0, {}, [Thread(Running, 0, true, false), Thread(Running, 0, true, false)]));
    run := Go(run, s0, State(Sending(2, 2), 1, true, 0, {}, [Thread(Running, 0, true, false), Thread(Running, 0, true, false)]), EndSend,
      State(Polling(2), 1, true, 0, {}, [Thread(Running, 0, true, false), Thread(Running, 0, true, false)]));
    run := Go(run, s0, State(Polling(2), 1, true, 0, {}, [Thread(Running, 0, true, false), Thread(Running, 0, true, false)]), TakeSuspend(0),
      State(Polling(2), 1, true, 0, {}, [Thread(Entered, 0, false, false), Thread(Running, 0, true, false)]));
    run := Go(run, s0, State(Polling(2), 1, true, 0, {}, [Thread(Entered, 0, false, false), Thread(Running, 0, true, false)]), Load(0),
      State(Polling(2), 1, true, 0, {}, [Thread(Loaded(1), 0, false, false), Thread(Running, 0, true, false)]));
    run := Go(run, s0, State(Polling(2), 1, true, 0, {}, [Thread(Loaded(1), 0, false, false), Thread(Running, 0, true, false)]), Post(0),
      State(Polling(2), 1, true, 1, {}, [Thread(Posted(1), 0, false, false), Thread(Running, 0, true, false)]));
    run := Go(run, s0, State(Polling(2), 1, true, 1, {}, [Thread(Posted(1), 0, false, false), Thread(Running, 0, true, false)]), TimeOut,
      State(Resending(0, 2, 0), 1, true, 1, {}, [Thread(Posted(1), 0, false, false), Thread(Running, 0, true, false)]));
    run := Go(run, s0, State(Resending(0, 2, 0), 1, true, 1, {}, [Thread(Posted(1), 0, false, false), Thread(Running, 0, true, false)]), Send,
      State(Resending(1, 2, 1), 1, true, 1, {}, [Thread(Posted(1), 0, true, false), Thread(Running, 0, true, false)]));
    run := Go(run, s0, State(Resending(1, 2, 1), 1, true, 1, {}, [Thread(Posted(1), 0, true, false), Thread(Running, 0, true, false)]), Send,
      State(Resending(2, 2, 2), 1, true, 1, {}, [Thread(Posted(1), 0, true, false), Thread(Running, 0, true, false)]));
    run := Go(run, s0, State(Resending(2, 2, 2), 1, true, 1, {}, [Thread(Posted(1), 0, true, false), Thread(Running, 0, true, false)]), EndResend,
      State(Polling(2), 1, true, 1, {}, [Thread(Posted(1), 0, true, false), Thread(Running, 0, true, false)]));
  }

  /** Thread 1 answers too. */
  lemma FirstStopAnswers(run0: seq<State>, s0: State) returns (run: seq<State>)
    requires PathTo(run0, s0, State(Polling(2), 1, true, 1, {}, [Thread(Posted(1), 0, true, false), Thread(Running, 0, true, false)])) == true
    ensures PathTo(run, s0, State(Polling(2), 1, true, 2, {}, [Thread(Parked(1), 1, true, false), Thread(Parked(1), 1, false, false)])) == true
  {
    run := run0;
    run := Go(run, s0, State(Polling(2), 1, true, 1, {}, [Thread(Posted(1), 0, true, false), Thread(Running, 0, true, false)]), Store(0),
      State(Polling(2), 1, true, 1, {}, [Thread(Parked(1), 1, true, false), Thread(Running, 0, true, false)]));
    run := Go(run, s0, State(Polling(2), 1, true, 1, {}, [Thread(Parked(1), 1, true, false), Thread(Running, 0, true, false)]), TakeSuspend(1),
      State(Polling(2), 1, true, 1, {}, [Thread(Parked(1), 1, true, false), Thread(Entered, 0, false, false)]));
    run := Go(run, s0, State(Polling(2), 1, true, 1, {}, [Thread(Parked(1), 1, true, false), Thread(Entered, 0, false, false)]), Load(1),
      State(Polling(2), 1, true, 1, {}, [Thread(Parked(1), 1, true, false), Thread(Loaded(1), 0, false, false)]));
    run := Go(run, s0, State(Polling(2), 1, true, 1, {}, [Thread(Parked(1), 1, true, false), Thread(Loaded(1), 0, false, false)]), Post(1),
      State(Polling(2), 1, true, 2, {}, [Thread(Parked(1), 1, true, false), Thread(Posted(1), 0, false, false)]));
    run := Go(run, s0, State(Polling(2), 1, true, 2, {}, [Thread(Parked(1), 1, true, false), Thread(Posted(1), 0, false, false)]), Store(1),
      State(Polling(2), 1, true, 2, {}, [Thread(Parked(1), 1, true, false), Thread(Parked(1), 1, false, false)]));
  }

  /** The first stop is over; the superfluous signal of thread 0 is pending. */
  lemma FirstStopReturns(run0: seq<State>, s0: State) returns (run: seq<State>)
    requires PathTo(run0, s0, State(Polling(2), 1, true, 2, {}, [Thread(Parked(1), 1, true, false), Thread(Parked(1), 1, false, false)])) == true
    ensures PathTo(run, s0, State(Stopped, 1, true, 0, {}, [Thread(Parked(1), 1, true, false), Thread(Parked(1), 1, false, false)])) == true
  {
    run := run0;
    run := Go(run, s0, State(Polling(2), 1, true, 2, {}, [Thread(Parked(1), 1, true, false), Thread(Parked(1), 1, false, false)]), Poll,
      State(Waiting(0, 2), 1, true, 2, {}, [Thread(Parked(1), 1, true, false), Thread(Parked(1), 1, false, false)]));
    run := Go(run, s0, State(Waiting(0, 2), 1, true, 2, {}, [Thread(Parked(1), 1, true, false), Thread(Parked(1), 1, false, false)]), SemWait,
      State(Waiting(1, 2), 1, true, 1, {}, [Thread(Parked(1), 1, true, false), Thread(Parked(1), 1, false, false)]));
    run := Go(run, s0, State(Waiting(1, 2), 1, true, 1, {}, [Thread(Parked(1), 1, true, false), Thread(Parked(1), 1, false, false)]), SemWait,
      State(Waiting(2, 2), 1, true, 0, {}, [Thread(Parked(1), 1, true, false), Thread(Parked(1), 1, false, false)]));
    run := Go(run, s0, State(Waiting(2, 2), 1, true, 0, {}, [Thread(Parked(1), 1, true, false), Thread(Parked(1), 1, false, false)]), EndWait,
      State(Stopped, 1, true, 0, {}, [Thread(Parked(1), 1, true, false), Thread(Parked(1), 1, false, false)]));
  }

  /** The world is restarted. */
  lemma FirstRestart(run0: seq<State>, s0: State) returns (run: seq<State>)
    requires PathTo(run0, s0, State(Stopped, 1, true, 0, {}, [Thread(Parked(1), 1, true, false), Thread(Parked(1), 1, false, false)])) == true
    ensures PathTo(run, s0, State(Idle, 1, false, 0, {}, [Thread(Running, 1, true, false), Thread(Running, 1, false, false)])) == true
  {
    run := run0;
    run := Go(run, s0, State(Stopped, 1, true, 0, {}, [Thread(Parked(1), 1, true, false), Thread(Parked(1), 1, false, false)]), BeginStart,
      State(Starting(0), 1, false, 0, {}, [Thread(Parked(1), 1, true, false), Thread(Parked(1), 1, false, false)]));
    run := Go(run, s0, State(Starting(0), 1, false, 0, {}, [Thread(Parked(1), 1, true, false), Thread(Parked(1), 1, false, false)]), SendRestart,
      State(Starting(1), 1, false, 0, {}, [Thread(Parked(1), 1, true, true), Thread(Parked(1), 1, false, false)]));
    run := Go(run, s0, State(Starting(1), 1, false, 0, {}, [Thread(Parked(1), 1, true, true), Thread(Parked(1), 1, false, false)]), SendRestart,
      State(Starting(2), 1, false, 0, {}, [Thread(Parked(1), 1, true, true), Thread(Parked(1), 1, false, true)]));
    run := Go(run, s0, State(Starting(2), 1, false, 0, {}, [Thread(Parked(1), 1, true, true), Thread(Parked(1), 1, false, true)]), EndStart,
      State(Idle, 1, false, 0, {}, [Thread(Parked(1), 1, true, true), Thread(Parked(1), 1, false, true)]));
    run := Go(run, s0, State(Idle, 1, false, 0, {}, [Thread(Parked(1), 1, true, true), Thread(Parked(1), 1, false, true)]), Wake(0, true),
      State(Idle, 1, false, 0, {}, [Thread(Woken(1), 1, true, false), Thread(Parked(1), 1, false, true)]));
    run := Go(run, s0, State(Idle, 1, false, 0, {}, [Thread(Woken(1), 1, true, false), Thread(Parked(1), 1, false, true)]), CheckFlag(0),
      State(Idle, 1, false, 0, {}, [Thread(Running, 1, true, false), Thread(Parked(1), 1, false, true)]));
    run := Go(run, s0, State(Idle, 1, false, 0, {}, [Thread(Running, 1, true, false), Thread(Parked(1), 1, false, true)]), Wake(1, true),
      State(Idle, 1, false, 0, {}, [Thread(Running, 1, true, false), Thread(Woken(1), 1, false, false)]));
    run := Go(run, s0, State(Idle, 1, false, 0, {}, [Thread(Running, 1, true, false), Thread(Woken(1), 1, false, false)]), CheckFlag(1),
      State(Idle, 1, false, 0, {}, [Thread(Running, 1, true, false), Thread(Running, 1, false, false)]));
  }

  /** In the second stop thread 0 answers the superfluous signal. */
  lemma SecondStopSurplus(run0: seq<State>, s0: State) returns (run: seq<State>)
    requires PathTo(run0, s0, State(Idle, 1, false, 0, {}, [Thread(Running, 1, true, false), Thread(Running, 1, false, false)])) == true
    ensures PathTo(run, s0, State(Sending(0, 0), 2, true, 1, {}, [Thread(Parked(2), 2, false, false), Thread(Running, 1, false, false)])) == true
  {
    run := run0;
    run := Go(run, s0, State(Idle, 1, false, 0, {}, [Thread(Running, 1, true, false), Thread(Running, 1, false, false)]), Bump({}),
      State(Bumped, 2, false, 0, {}, [Thread(Running, 1, true, false), Thread(Running, 1, false, false)]));
    run := Go(run, s0, State(Bumped, 2, false, 0, {}, [Thread(Running, 1, true, false), Thread(Running, 1, false, false)]), SetStopped,
      State(Sending(0, 0), 2, true, 0, {}, [Thread(Running, 1, true, false), Thread(Running, 1, false, false)]));
    run := Go(run, s0, State(Sending(0, 0), 2, true, 0, {}, [Thread(Running, 1, true, false), Thread(Running, 1, false, false)]), TakeSuspend(0),
      State(Sending(0, 0), 2, true, 0, {}, [Thread(Entered, 1, false, false), Thread(Running, 1, false, false)]));
    run := Go(run, s0, State(Sending(0, 0), 2, true, 0, {}, [Thread(Entered, 1, false, false), Thread(Running, 1, false, false)]), Load(0),
      State(Sending(0, 0), 2, true, 0, {}, [Thread(Loaded(2), 1, false, false), Thread(Running, 1, false, false)]));
    run := Go(run, s0, State(Sending(0, 0), 2, true, 0, {}, [Thread(Loaded(2), 1, false, false), Thread(Running, 1, false, false)]), Post(0),
      State(Sending(0, 0), 2, true, 1, {}, [Thread(Posted(2), 1, false, false), Thread(Running, 1, false, false)]));
    run := Go(run, s0, State(Sending(0, 0), 2, true, 1, {}, [Thread(Posted(2), 1, false, false), Thread(Running, 1, false, false)]), Store(0),
      State(Sending(0, 0), 2, true, 1, {}, [Thread(Parked(2), 2, false, false), Thread(Running, 1, false, false)]));
  }

  /** It is skipped, and its acknowledgement is taken for that of thread 1. */
  lemma SecondStopReturns(run0: seq<State>, s0: State) returns (run: seq<State>)
    requires PathTo(run0, s0, State(Sending(0, 0), 2, true, 1, {}, [Thread(Parked(2), 2, false, false), Thread(Running, 1, false, false)])) == true
    ensures PathTo(run, s0, State(Stopped, 2, true, 0, {}, [Thread(Parked(2), 2, false, false), Thread(Running, 1, true, false)])) == true
  {
    run := run0;
    run := Go(run, s0, State(Sending(0, 0), 2, true, 1, {}, [Thread(Parked(2), 2, false, false), Thread(Running, 1, false, false)]), Send,
      State(Sending(1, 0), 2, true, 1, {}, [Thread(Parked(2), 2, false, false), Thread(Running, 1, false, false)]));
    run := Go(run, s0, State(Sending(1, 0), 2, true, 1, {}, [Thread(Parked(2), 2, false, false), Thread(Running, 1, false, false)]), Send,
      State(Sending(2, 1), 2, true, 1, {}, [Thread(Parked(2), 2, false, false), Thread(Running, 1, true, false)]));
    run := Go(run, s0, State(Sending(2, 1), 2, true, 1, {}, [Thread(Parked(2), 2, false, false), Thread(Running, 1, true, false)]), EndSend,
      State(Polling(1), 2, true, 1, {}, [Thread(Parked(2), 2, false, false), Thread(Running, 1, true, false)]));
    run := Go(run, s0, State(Polling(1), 2, true, 1, {}, [Thread(Parked(2), 2, false, false), Thread(Running, 1, true, false)]), Poll,
      State(Waiting(0, 1), 2, true, 1, {}, [Thread(Parked(2), 2, false, false), Thread(Running, 1, true, false)]));
    run := Go(run, s0, State(Waiting(0, 1), 2, true, 1, {}, [Thread(Parked(2), 2, false, false), Thread(Running, 1, true, false)]), SemWait,
      State(Waiting(1, 1), 2, true, 0, {}, [Thread(Parked(2), 2, false, false), Thread(Running, 1, true, false)]));
    run := Go(run, s0, State(Waiting(1, 1), 2, true, 0, {}, [Thread(Parked(2), 2, false, false), Thread(Running, 1, true, false)]), EndWait,
      State(Stopped, 2, true, 0, {}, [Thread(Parked(2), 2, false, false), Thread(Running, 1, true, false)]));
  }
}
