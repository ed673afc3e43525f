/**
 Parallel marking (mark.c): helpers steal entries from the global mark stack, mark from stacks of their own, and give
 entries back.  Every atomic operation and every region under the mark lock is one step of a transition system.
 */
module ParallelMark {
  import opened MarkGraph
  import opened MarkSteps
  import opened Collections

  const LOCAL_MARK_STACK_SIZE := 4096
  const ENTRIES_TO_GET := 5

  /** A slot of the global stack; it is claimed when its descriptor was overwritten with 0. */
  datatype Slot = Slot(entry: Entry, claimed: bool)

  /** Where a helper is in GC_mark_local. */
  datatype Pc =
    | Outside
    | Enter
    | LoadFirst
    | Sync(g: int)
    | ReadTop
    | CheckEmpty
    | Wait
    | StealLoad(p: int, hi: int, cnt: int, max: int)
    | StealStore(p: int, hi: int, cnt: int, max: int)
    | Marking
    | AfterMark

  datatype Helper = Helper(pc: Pc, myFirst: int, local: seq<Entry>)

  /** The initiating thread: itself a helper, then waiting until the others have left, then done. */
  datatype MainPc = Helping | Closing | Done

  /** notified: the waiting helpers that were notified since they began to wait.  hs[0] is the initiator. */
  datatype State = State(marked: set<int>, glob: seq<Slot>, first: int, invalid: bool, active: int, helpers: int,
                         capacity: int, hs: seq<Helper>, notified: set<int>, main: MainPc)

  /** The helper is counted in GC_active_count. */
  predicate IsActive(h: Helper) {
    !h.pc.Outside? && !h.pc.Enter? && !h.pc.Wait?
  }

  /** The helper is counted in GC_helper_count. */
  predicate IsHelper(h: Helper) {
    !h.pc.Outside?
  }

  function CountActive(hs: seq<Helper>): int {
    if hs == [] then 0 else CountActive(hs[1..]) + if IsActive(hs[0]) then 1 else 0
  }

  function CountHelpers(hs: seq<Helper>): int {
    if hs == [] then 0 else CountHelpers(hs[1..]) + if IsHelper(hs[0]) then 1 else 0
  }

  // ------------------------------------------------------------------------------------------------ the steps

  /** GC_help_marker: become a helper, as long as help is wanted. */
  predicate Join(s: State, t: State, i: int)
    requires 0 <= i < |s.hs|
  {
    && s.hs[i].pc.Outside? && s.main.Helping? && i > 0
    && t == s.(helpers := s.helpers + 1, hs := s.hs[i := Helper(Enter, 0, [])])
  }

  predicate DoEnter(s: State, t: State, i: int)
    requires 0 <= i < |s.hs|
  {
    && s.hs[i].pc.Enter?
    && t == s.(active := s.active + 1, hs := s.hs[i := s.hs[i].(pc := LoadFirst, myFirst := s.first)])
  }

  predicate DoLoadFirst(s: State, t: State, i: int)
    requires 0 <= i < |s.hs|
  {
    && s.hs[i].pc.LoadFirst?
    && t == s.(hs := s.hs[i := s.hs[i].(pc := Sync(s.first))])
  }

  /** Take over a higher GC_first_nonempty, or raise it with compare-and-swap. */
  predicate DoSync(s: State, t: State, i: int)
    requires 0 <= i < |s.hs|
  {
    && s.hs[i].pc.Sync?
    && var h := s.hs[i];
    var g := h.pc.g;
    if h.myFirst < g then t == s.(hs := s.hs[i := h.(pc := ReadTop, myFirst := g)])
    else if g < h.myFirst && s.first == g
    then t == s.(first := h.myFirst, hs := s.hs[i := h.(pc := ReadTop)])
    else t == s.(hs := s.hs[i := h.(pc := ReadTop)])
  }

  function ToGet(n: int): int {
    if n < 2 * ENTRIES_TO_GET then 1 else ENTRIES_TO_GET
  }

  function StartSteal(h: Helper, top: int): Helper {
    h.(pc := StealLoad(h.myFirst, top, 0, ToGet(top - h.myFirst + 1)))
  }

  predicate DoReadTop(s: State, t: State, i: int)
    requires 0 <= i < |s.hs|
  {
    && s.hs[i].pc.ReadTop?
    && var h, top := s.hs[i], |s.glob| - 1;
    t == s.(hs := s.hs[i := if top - h.myFirst + 1 == 0 then h.(pc := CheckEmpty) else StartSteal(h, top)])
  }

  /** What a helper does under the lock that is not active and finds active markers in number n: wait, leave, or go
      on. */
  predicate Decide(s: State, t: State, i: int, n: int)
    requires 0 <= i < |s.hs|
  {
    var h, top := s.hs[i], |s.glob| - 1;
    if n > 0 && s.first > top then t == s.(active := n, hs := s.hs[i := h.(pc := Wait)], notified := s.notified - {i})
    else if n == 0 && s.first > top
    then t == s.(active := n, helpers := s.helpers - 1, hs := s.hs[i := h.(pc := Outside)])
    else t == s.(active := n + 1, hs := s.hs[i := h.(pc := LoadFirst)])
  }

  predicate DoCheckEmpty(s: State, t: State, i: int)
    requires 0 <= i < |s.hs|
  {
    && s.hs[i].pc.CheckEmpty?
    && var h, top := s.hs[i], |s.glob| - 1;
    if top - h.myFirst + 1 == 0
    then Decide(if s.active - 1 == 0 then s.(notified := Interval(0, |s.hs|)) else s, t, i, s.active - 1)
    else t == s.(hs := s.hs[i := StartSteal(h, top)])
  }

  /** A waiting helper looks again, notified or not. */
  predicate DoWake(s: State, t: State, i: int)
    requires 0 <= i < |s.hs|
  {
    s.hs[i].pc.Wait? && Decide(s, t, i, s.active)
  }

  /** The loop of GC_steal_mark_stack: look at the next slot. */
  predicate DoStealLoad(s: State, t: State, i: int)
    requires 0 <= i < |s.hs|
  {
    && s.hs[i].pc.StealLoad?
    && var h, pc := s.hs[i], s.hs[i].pc;
    if pc.p <= pc.hi && pc.cnt <= pc.max && 0 <= pc.p < |s.glob|
    then t == s.(hs := s.hs[i := h.(pc := if s.glob[pc.p].claimed then StealLoad(pc.p + 1, pc.hi, pc.cnt, pc.max)
                                          else StealStore(pc.p, pc.hi, pc.cnt, pc.max))])
    else t == s.(hs := s.hs[i := h.(pc := Marking, myFirst := pc.p)])
  }

  /** Claim the slot that was found unclaimed, although another helper may have claimed it by now. */
  predicate DoStealStore(s: State, t: State, i: int)
    requires 0 <= i < |s.hs|
  {
    && s.hs[i].pc.StealStore? && 0 <= s.hs[i].pc.p < |s.glob|
    && var h, pc := s.hs[i], s.hs[i].pc;
    var e := s.glob[pc.p].entry;
    t == s.(glob := s.glob[pc.p := Slot(e, true)],
            hs := s.hs[i := h.(pc := StealLoad(pc.p + 1, pc.hi, pc.cnt + 1 + e.len / 256, pc.max),
                               local := h.local + [e])])
  }

  ghost predicate KeepsPrecise(w: World, m: set<int>, s: seq<Entry>, m1: set<int>, s1: seq<Entry>)
    requires w.align > 0
  {
    forall u {:trigger Precise(w, u, m1, s1)} | Precise(w, u, m, s) :: Precise(w, u, m1, s1)
  }

  /** Some marking from the local stack, to which the range being scanned still belongs: any number of rounds of
      GC_mark_from, as RoundIsMarking shows of one. */
  ghost predicate DoMark(w: World, s: State, t: State, i: int)
    requires 0 <= i < |s.hs| && w.align > 0
  {
    && s.hs[i].pc.Marking?
    && |t.hs| == |s.hs| && (t.hs[i].pc.Marking? || t.hs[i].pc.AfterMark?)
    && s.marked <= t.marked && (s.invalid ==> t.invalid)
    && (s.hs[i].local == [] ==> t.hs[i].local == [] && t.marked == s.marked && t.invalid == s.invalid)
    && KeepsPrecise(w, s.marked, s.hs[i].local, t.marked, t.hs[i].local)
    && (t.invalid || Keeps(w, s.marked, s.hs[i].local, t.marked, t.hs[i].local))
    && t == s.(marked := t.marked, invalid := t.invalid,
               hs := s.hs[i := s.hs[i].(pc := t.hs[i].pc, local := t.hs[i].local)])
  }

  /** GC_return_mark_stack: entries go back to the global stack, if there is room. */
  function Returned(s: State, back: seq<Entry>): State {
    if |s.glob| + |back| > s.capacity then s.(invalid := true)
    else s.(glob := s.glob + seq(|back|, k requires 0 <= k < |back| => Slot(back[k], false)))
  }

  /** The tests after GC_mark_from in GC_do_local_mark. */
  predicate DoAfterMark(s: State, t: State, i: int)
    requires 0 <= i < |s.hs|
  {
    && s.hs[i].pc.AfterMark?
    && var h := s.hs[i];
    if h.local == [] then t == s.(hs := s.hs[i := h.(pc := LoadFirst)])
    else if |h.local| - 1 >= LOCAL_MARK_STACK_SIZE / 2
    then t == Returned(s, h.local).(hs := s.hs[i := h.(pc := LoadFirst, local := [])])
    else || t == s.(hs := s.hs[i := h.(pc := Marking)])
         || (|h.local| - 1 > 1 && Share(s, t, i))
  }

  /** Share the load: the lower half of the local stack goes back. */
  predicate Share(s: State, t: State, i: int)
    requires 0 <= i < |s.hs|
  {
    var h := s.hs[i];
    var bottom := (|h.local| - 1) / 2;
    0 <= bottom <= |h.local| &&
    t == Returned(s, h.local[..bottom]).(hs := s.hs[i := h.(pc := Marking, local := h.local[bottom..])])
  }

  /** The initiator, no longer a helper itself, lets nobody join any more, and waits until there are no helpers. */
  predicate MainStep(s: State, t: State) {
    || (s.main.Helping? && 0 < |s.hs| && s.hs[0].pc.Outside? && t == s.(main := Closing))
    || (s.main.Closing? && s.helpers <= 0 && t == s.(main := Done))
  }

  ghost predicate Next(w: World, s: State, t: State)
    requires w.align > 0
  {
    MainStep(s, t) || exists i :: 0 <= i < |s.hs| && StepOf(w, s, t, i)
  }

  /** How GC_do_parallel_mark begins, with stack s to mark from. */
  ghost predicate Start(w: World, s: State, stack: seq<Entry>) {
    && |s.glob| == |stack| <= s.capacity && (forall k | 0 <= k < |stack| :: s.glob[k] == Slot(stack[k], false))
    && s.first == 0 && !s.invalid && s.active == 0 && s.helpers == 1 && s.main.Helping? && s.notified == {}
    && |s.hs| > 0 && s.hs[0] == Helper(Enter, 0, []) && forall i | 0 < i < |s.hs| :: s.hs[i] == Helper(Outside, 0, [])
  }

  ghost predicate Run(w: World, run: seq<State>)
    requires w.align > 0
  {
    |run| > 0 && forall n {:trigger run[n]} | 0 < n < |run| :: Next(w, run[n - 1], run[n])
  }

  ghost predicate StepOf(w: World, s: State, t: State, i: int)
    requires 0 <= i < |s.hs| && w.align > 0
  {
    || Join(s, t, i) || DoEnter(s, t, i) || DoLoadFirst(s, t, i) || DoSync(s, t, i) || DoReadTop(s, t, i)
    || DoCheckEmpty(s, t, i) || DoWake(s, t, i) || DoStealLoad(s, t, i) || DoStealStore(s, t, i)
    || DoMark(w, s, t, i) || DoAfterMark(s, t, i)
  }

  // --------------------------------------------------------------------------------------------- the invariant

  ghost predicate ClaimedBelow(s: State, k: int) {
    k <= |s.glob| && forall j | 0 <= j < k && j < |s.glob| :: s.glob[j].claimed
  }

  ghost predicate HelperOk(s: State, h: Helper) {
    && (!h.pc.Outside? && !h.pc.Enter? ==> 0 <= h.myFirst && ClaimedBelow(s, h.myFirst))
    && (h.pc.Sync? ==> 0 <= h.pc.g <= s.first)
    && (h.pc.StealLoad? ==> h.myFirst <= h.pc.p <= h.pc.hi + 1 && h.pc.hi < |s.glob| && ClaimedBelow(s, h.pc.p))
    && (h.pc.StealStore? ==> h.myFirst <= h.pc.p <= h.pc.hi && h.pc.hi < |s.glob| && ClaimedBelow(s, h.pc.p))
    && (!(h.pc.StealLoad? || h.pc.StealStore? || h.pc.Marking? || h.pc.AfterMark?) ==> h.local == [])
  }

  ghost predicate Inv(s: State) {
    && 0 <= s.first && ClaimedBelow(s, s.first)
    && s.active == CountActive(s.hs)
    && s.helpers == CountHelpers(s.hs)
    && (forall i {:trigger HelperOk(s, s.hs[i])} | 0 <= i < |s.hs| :: HelperOk(s, s.hs[i]))
    && (s.active == 0 ==> AllNotified(s))
    && (!s.main.Helping? ==> 0 < |s.hs| && s.hs[0].pc.Outside? && Quiet(s))
    && (0 < |s.hs| && s.hs[0].pc.Outside? ==> Quiet(s))
    && (s.main.Done? ==> s.helpers == 0)
  }

  ghost predicate AllNotified(s: State) {
    forall i {:trigger s.hs[i]} | 0 <= i < |s.hs| && s.hs[i].pc.Wait? :: i in s.notified
  }

  /** Every entry that was ever deposited is claimed, and no helper holds work or is about to take some. */
  ghost predicate Quiet(s: State) {
    && ClaimedBelow(s, |s.glob|)
    && forall i {:trigger s.hs[i]} | 0 <= i < |s.hs| :: s.hs[i].local == [] && !s.hs[i].pc.StealStore?
  }

  lemma {:induction false} CountUpdate(hs: seq<Helper>, i: int, h: Helper)
    requires 0 <= i < |hs|
    ensures CountActive(hs[i := h]) == CountActive(hs) - (if IsActive(hs[i]) then 1 else 0) + if IsActive(h) then 1 else 0
    ensures CountHelpers(hs[i := h]) == CountHelpers(hs) - (if IsHelper(hs[i]) then 1 else 0) + if IsHelper(h) then 1 else 0
  {
    if i == 0 {
      assert hs[i := h][1..] == hs[1..];
    } else {
      assert hs[i := h][1..] == hs[1..][i - 1 := h];
      CountUpdate(hs[1..], i - 1, h);
    }
  }

  lemma {:induction false} NoneActive(hs: seq<Helper>, i: int)
    requires 0 <= i < |hs|
    ensures CountActive(hs) >= 0 && (IsActive(hs[i]) ==> CountActive(hs) > 0)
    ensures CountHelpers(hs) >= 0 && (IsHelper(hs[i]) ==> CountHelpers(hs) > 0)
  {
    if i > 0 {
      NoneActive(hs[1..], i - 1);
    } else if |hs| > 1 {
      NoneActive(hs[1..], 0);
    }
  }

  /** A step changes helper i only, and the global stack only grows, claimed slots staying claimed. */
  ghost predicate Grows(s: State, t: State, i: int) {
    && |t.hs| == |s.hs| && 0 <= i < |s.hs| && t.hs == s.hs[i := t.hs[i]]
    && |s.glob| <= |t.glob| && s.first <= t.first
    && (forall j {:trigger t.glob[j]} | 0 <= j < |s.glob| ::
          t.glob[j].entry == s.glob[j].entry && (s.glob[j].claimed ==> t.glob[j].claimed))
  }

  lemma StepGrows(w: World, s: State, t: State, i: int)
    requires w.align > 0 && Inv(s) && 0 <= i < |s.hs| && StepOf(w, s, t, i)
    ensures Grows(s, t, i)
  {
    assert HelperOk(s, s.hs[i]);
    if DoStealStore(s, t, i) || DoMark(w, s, t, i) || DoAfterMark(s, t, i) {
      WorkGrows(w, s, t, i);
    } else {
      ControlGrows(s, t, i);
    }
  }

  lemma WorkGrows(w: World, s: State, t: State, i: int)
    requires w.align > 0 && 0 <= i < |s.hs| && HelperOk(s, s.hs[i])
    requires DoStealStore(s, t, i) || DoMark(w, s, t, i) || DoAfterMark(s, t, i)
    ensures Grows(s, t, i)
  {
  }

  lemma ControlGrows(s: State, t: State, i: int)
    requires 0 <= i < |s.hs| && HelperOk(s, s.hs[i])
    requires || Join(s, t, i) || DoEnter(s, t, i) || DoLoadFirst(s, t, i) || DoSync(s, t, i) || DoReadTop(s, t, i)
             || DoCheckEmpty(s, t, i) || DoWake(s, t, i) || DoStealLoad(s, t, i)
    ensures Grows(s, t, i)
  {
  }

  lemma OthersStayOk(s: State, t: State, i: int, j: int)
    requires Grows(s, t, i) && 0 <= j < |s.hs| && j != i && HelperOk(s, s.hs[j])
    ensures HelperOk(t, t.hs[j])
  {
    assert t.hs[j] == s.hs[j];
  }

  /** The steps that change who is counted. */
  lemma CountingStep(s: State, t: State, i: int)
    requires Grows(s, t, i) && s.active == CountActive(s.hs) && s.helpers == CountHelpers(s.hs)
    requires Join(s, t, i) || DoEnter(s, t, i) || DoCheckEmpty(s, t, i) || DoWake(s, t, i)
    ensures t.active == CountActive(t.hs) && t.helpers == CountHelpers(t.hs)
  {
    CountUpdate(s.hs, i, t.hs[i]);
  }

  lemma OtherStep(w: World, s: State, t: State, i: int)
    requires w.align > 0 && Grows(s, t, i) && s.active == CountActive(s.hs) && s.helpers == CountHelpers(s.hs)
    requires DoLoadFirst(s, t, i) || DoSync(s, t, i) || DoReadTop(s, t, i) || DoStealLoad(s, t, i) || DoStealStore(s, t, i)
             || DoMark(w, s, t, i) || DoAfterMark(s, t, i)
    ensures t.active == CountActive(t.hs) && t.helpers == CountHelpers(t.hs) && t.active == s.active
    ensures !s.hs[i].pc.Outside? && !t.hs[i].pc.Outside?
  {
    CountUpdate(s.hs, i, t.hs[i]);
  }

  lemma StepKeepsCounts(w: World, s: State, t: State, i: int)
    requires w.align > 0 && Inv(s) && 0 <= i < |s.hs| && StepOf(w, s, t, i)
    ensures t.active == CountActive(t.hs) && t.helpers == CountHelpers(t.hs)
  {
    StepGrows(w, s, t, i);
    if Join(s, t, i) || DoEnter(s, t, i) || DoCheckEmpty(s, t, i) || DoWake(s, t, i) {
      CountingStep(s, t, i);
    } else {
      OtherStep(w, s, t, i);
    }
  }

  /** The steps outside the loop of GC_steal_mark_stack and the marking. */
  lemma ControlKeepsHelper(s: State, t: State, i: int)
    requires Inv(s) && Grows(s, t, i)
    requires Join(s, t, i) || DoEnter(s, t, i) || DoLoadFirst(s, t, i) || DoSync(s, t, i) || DoReadTop(s, t, i)
             || DoCheckEmpty(s, t, i) || DoWake(s, t, i)
    ensures HelperOk(t, t.hs[i]) && ClaimedBelow(t, t.first)
  {
    assert HelperOk(s, s.hs[i]);
  }

  lemma StealKeepsHelper(s: State, t: State, i: int)
    requires Inv(s) && Grows(s, t, i)
    requires DoStealLoad(s, t, i) || DoStealStore(s, t, i)
    ensures HelperOk(t, t.hs[i]) && ClaimedBelow(t, t.first)
  {
    assert HelperOk(s, s.hs[i]);
  }

  lemma MarkKeepsHelper(w: World, s: State, t: State, i: int)
    requires w.align > 0 && Inv(s) && Grows(s, t, i)
    requires DoMark(w, s, t, i) || DoAfterMark(s, t, i)
    ensures HelperOk(t, t.hs[i]) && ClaimedBelow(t, t.first)
  {
    assert HelperOk(s, s.hs[i]);
  }

  lemma StepKeepsHelper(w: World, s: State, t: State, i: int)
    requires w.align > 0 && Inv(s) == true && 0 <= i < |s.hs| && |t.hs| == |s.hs| && StepOf(w, s, t, i)
    ensures HelperOk(t, t.hs[i]) && ClaimedBelow(t, t.first)
  {
    StepGrows(w, s, t, i);
    if DoStealLoad(s, t, i) || DoStealStore(s, t, i) {
      StealKeepsHelper(s, t, i);
    } else if DoMark(w, s, t, i) || DoAfterMark(s, t, i) {
      MarkKeepsHelper(w, s, t, i);
    } else {
      ControlKeepsHelper(s, t, i);
    }
  }

  /** When a helper leaves nothing is left to do ... */
  lemma LeaveIsQuiet(w: World, s: State, t: State, i: int)
    requires w.align > 0 && Inv(s) && 0 <= i < |s.hs| && |t.hs| == |s.hs| && StepOf(w, s, t, i)
    requires !s.hs[i].pc.Outside? && t.hs[i].pc.Outside?
    ensures Quiet(t)
  {
    StepGrows(w, s, t, i);
    if DoCheckEmpty(s, t, i) || DoWake(s, t, i) {
      LeftIsQuiet(s, t, i);
    } else if !Join(s, t, i) && !DoEnter(s, t, i) {
      OtherStep(w, s, t, i);
    }
  }

  lemma LeftIsQuiet(s: State, t: State, i: int)
    requires Inv(s) && Grows(s, t, i) && (DoCheckEmpty(s, t, i) || DoWake(s, t, i))
    requires t.hs[i].pc.Outside?
    ensures Quiet(t)
  {
    assert HelperOk(s, s.hs[i]);
    CountingStep(s, t, i);
    assert t.active == 0 && t.first > |t.glob| - 1 && ClaimedBelow(t, t.first);
    forall j {:trigger t.hs[j]} | 0 <= j < |t.hs| ensures t.hs[j].local == [] && !t.hs[j].pc.StealStore? {
      NoneActive(t.hs, j);
      if j != i {
        assert HelperOk(s, s.hs[j]);
      }
    }
  }

  /** ... and nothing will be. */
  lemma QuietStays(w: World, s: State, t: State, i: int)
    requires w.align > 0 && Inv(s) && 0 <= i < |s.hs| && StepOf(w, s, t, i) && Quiet(s)
    ensures Quiet(t) && t.marked == s.marked && t.invalid == s.invalid
  {
    assert s.hs[i].local == [] && !s.hs[i].pc.StealStore?;
    if DoMark(w, s, t, i) || DoAfterMark(s, t, i) {
      QuietIdle(w, s, t, i);
    } else {
      assert HelperOk(s, s.hs[i]);
      StepGrows(w, s, t, i);
    }
  }

  lemma QuietIdle(w: World, s: State, t: State, i: int)
    requires w.align > 0 && 0 <= i < |s.hs| && Quiet(s) && (DoMark(w, s, t, i) || DoAfterMark(s, t, i))
    ensures Quiet(t) && t.marked == s.marked && t.invalid == s.invalid
  {
    assert s.hs[i].local == [];
  }

  lemma StepKeepsNotified(w: World, s: State, t: State, i: int)
    requires w.align > 0 && Inv(s) && 0 <= i < |s.hs| && StepOf(w, s, t, i)
    ensures t.active == 0 ==> AllNotified(t)
  {
    StepGrows(w, s, t, i);
    NoneActive(s.hs, i);
    if Join(s, t, i) || DoEnter(s, t, i) || DoCheckEmpty(s, t, i) || DoWake(s, t, i) {
      CountingNotified(s, t, i);
    } else {
      OtherStep(w, s, t, i);
      OtherNotified(w, s, t, i);
    }
  }

  lemma CountingNotified(s: State, t: State, i: int)
    requires Grows(s, t, i) && (s.active == 0 ==> AllNotified(s)) && s.active >= 0 && (IsActive(s.hs[i]) ==> s.active > 0)
    requires Join(s, t, i) || DoEnter(s, t, i) || DoCheckEmpty(s, t, i) || DoWake(s, t, i)
    ensures t.active == 0 ==> AllNotified(t)
  {
  }

  lemma OtherNotified(w: World, s: State, t: State, i: int)
    requires w.align > 0 && Grows(s, t, i) && (s.active == 0 ==> AllNotified(s)) && t.active == s.active
    requires DoLoadFirst(s, t, i) || DoSync(s, t, i) || DoReadTop(s, t, i) || DoStealLoad(s, t, i) || DoStealStore(s, t, i)
             || DoMark(w, s, t, i) || DoAfterMark(s, t, i)
    ensures t.active == 0 ==> AllNotified(t)
  {
  }

  lemma HelperStepKeepsInv(w: World, s: State, t: State, i: int)
    requires w.align > 0 && Inv(s) && 0 <= i < |s.hs| && StepOf(w, s, t, i)
    ensures Inv(t)
  {
    StepGrows(w, s, t, i);
    StepKeepsCounts(w, s, t, i);
    StepKeepsHelper(w, s, t, i);
    StepKeepsNotified(w, s, t, i);
    forall j {:trigger HelperOk(t, t.hs[j])} | 0 <= j < |t.hs| ensures HelperOk(t, t.hs[j]) {
      if j != i {
        assert HelperOk(s, s.hs[j]);
        OthersStayOk(s, t, i, j);
      }
    }
    NoneActive(s.hs, i);
    if s.hs[0].pc.Outside? {
      QuietStays(w, s, t, i);
    } else if t.hs[0].pc.Outside? {
      LeaveIsQuiet(w, s, t, i);
    }
  }

  lemma StepKeepsInv(w: World, s: State, t: State)
    requires w.align > 0 && Inv(s) && Next(w, s, t)
    ensures Inv(t)
  {
    if MainStep(s, t) {
      NoneActive(s.hs, 0);
      forall j {:trigger HelperOk(t, t.hs[j])} | 0 <= j < |t.hs| ensures HelperOk(t, t.hs[j]) {
        assert HelperOk(s, s.hs[j]);
      }
    } else {
      var i :| 0 <= i < |s.hs| && StepOf(w, s, t, i);
      HelperStepKeepsInv(w, s, t, i);
    }
  }

  lemma StartInv(w: World, s: State, stack: seq<Entry>)
    requires Start(w, s, stack)
    ensures Inv(s)
  {
    AllOutside(s.hs[1..]);
  }

  lemma {:induction false} AllOutside(hs: seq<Helper>)
    requires forall i | 0 <= i < |hs| :: hs[i].pc.Outside?
    ensures CountActive(hs) == 0 && CountHelpers(hs) == 0
  {
    if hs != [] {
      AllOutside(hs[1..]);
    }
  }

  // ------------------------------------------------------------------------------------------- nothing is lost

  /** The address p will still be looked at. */
  ghost predicate PendingIn(w: World, s: State, p: int)
    requires w.align > 0
  {
    || (exists k :: 0 <= k < |s.glob| && !s.glob[k].claimed && Candidate(w, s.glob[k].entry, p))
    || (exists i :: 0 <= i < |s.hs| && Pending(w, s.hs[i].local, p))
  }

  ghost predicate ResolvedIn(w: World, s: State, p: int)
    requires w.align > 0
  {
    Target(w, p) == NONE || Target(w, p) in s.marked || PendingIn(w, s, p)
  }

  ghost predicate AllResolvedIn(w: World, s: State, e: Entry)
    requires w.align > 0
  {
    forall p {:trigger ResolvedIn(w, s, p)} | Candidate(w, e, p) :: ResolvedIn(w, s, p)
  }

  /** MarkGraph.Keeps, with the work spread over the global stack and the helpers. */
  ghost predicate KeepsIn(w: World, s: State, t: State)
    requires w.align > 0
  {
    && s.marked <= t.marked
    && (forall p {:trigger ResolvedIn(w, t, p)} | ResolvedIn(w, s, p) :: ResolvedIn(w, t, p))
    && (forall o {:trigger o in t.marked} | o in t.marked && o !in s.marked && o in w.descr ::
          AllResolvedIn(w, t, Range(w, o)))
  }

  lemma KeepsInTrans(w: World, s: State, t: State, r: State)
    requires w.align > 0 && KeepsIn(w, s, t) == true && KeepsIn(w, t, r) == true
    ensures KeepsIn(w, s, r) == true
  {
    forall p {:trigger ResolvedIn(w, r, p)} | ResolvedIn(w, s, p) ensures ResolvedIn(w, r, p) {
      assert ResolvedIn(w, t, p);
    }
    forall o {:trigger o in r.marked} | o in r.marked && o !in s.marked && o in w.descr
      ensures AllResolvedIn(w, r, Range(w, o))
    {
      if o in t.marked {
        forall p {:trigger ResolvedIn(w, r, p)} | Candidate(w, Range(w, o), p) ensures ResolvedIn(w, r, p) {
          assert ResolvedIn(w, t, p);
        }
      }
    }
  }

  /** What helper i had to do is still to be done, by it or from the global stack. */
  ghost predicate Passes(w: World, s: State, t: State, i: int)
    requires w.align > 0 && 0 <= i < |s.hs|
  {
    forall p {:trigger PendingIn(w, t, p)} | Pending(w, s.hs[i].local, p) :: PendingIn(w, t, p)
  }

  /** Entries that are unclaimed stay so, or get into the stack of helper i. */
  ghost predicate TakesOver(w: World, s: State, t: State, i: int)
    requires w.align > 0 && Grows(s, t, i)
  {
    forall k {:trigger s.glob[k]} | 0 <= k < |s.glob| && !s.glob[k].claimed ::
      !t.glob[k].claimed || s.glob[k].entry in t.hs[i].local
  }

  lemma PassedOn(w: World, s: State, t: State, i: int)
    requires w.align > 0 && Grows(s, t, i) && t.marked == s.marked && Passes(w, s, t, i) && TakesOver(w, s, t, i)
    ensures KeepsIn(w, s, t) == true
  {
    forall p {:trigger ResolvedIn(w, t, p)} | ResolvedIn(w, s, p) ensures ResolvedIn(w, t, p) {
      if k :| 0 <= k < |s.glob| && !s.glob[k].claimed && Candidate(w, s.glob[k].entry, p) {
        if t.glob[k].claimed {
          var m :| 0 <= m < |t.hs[i].local| && t.hs[i].local[m] == s.glob[k].entry;
          assert Pending(w, t.hs[i].local, p);
        } else {
          assert Candidate(w, t.glob[k].entry, p);
        }
      } else if j :| 0 <= j < |s.hs| && Pending(w, s.hs[j].local, p) {
        if j == i {
          assert PendingIn(w, t, p);
        } else {
          assert t.hs[j] == s.hs[j];
        }
      }
    }
  }

  lemma StealKeeps(w: World, s: State, t: State, i: int)
    requires w.align > 0 && Inv(s) && Grows(s, t, i) && DoStealStore(s, t, i)
    ensures KeepsIn(w, s, t) == true
  {
    var local0, e := s.hs[i].local, s.glob[s.hs[i].pc.p].entry;
    assert t.hs[i].local[|local0|] == e;
    forall p {:trigger PendingIn(w, t, p)} | Pending(w, local0, p) ensures PendingIn(w, t, p) {
      var k :| 0 <= k < |local0| && Candidate(w, local0[k], p);
      assert Candidate(w, t.hs[i].local[k], p);
      assert Pending(w, t.hs[i].local, p);
    }
    PassedOn(w, s, t, i);
  }

  /** GC_return_mark_stack, with the part of the local stack that stays. */
  lemma ReturnKeeps(w: World, s: State, t: State, i: int, back: seq<Entry>, rest: seq<Entry>)
    requires w.align > 0 && Grows(s, t, i) && s.hs[i].local == back + rest && t.marked == s.marked
    requires t.glob == Returned(s, back).glob && t.hs[i].local == rest && |s.glob| + |back| <= s.capacity
    ensures KeepsIn(w, s, t) == true
  {
    forall p {:trigger PendingIn(w, t, p)} | Pending(w, s.hs[i].local, p) ensures PendingIn(w, t, p) {
      var k :| 0 <= k < |s.hs[i].local| && Candidate(w, s.hs[i].local[k], p);
      if k < |back| {
        assert t.glob[|s.glob| + k] == Slot(back[k], false);
      } else {
        assert Candidate(w, rest[k - |back|], p);
        assert Pending(w, t.hs[i].local, p);
      }
    }
    PassedOn(w, s, t, i);
  }

  lemma MarkingKeeps(w: World, s: State, t: State, i: int)
    requires w.align > 0 && Grows(s, t, i) && DoMark(w, s, t, i) && !t.invalid
    ensures KeepsIn(w, s, t) == true
  {
    var l, l1 := s.hs[i].local, t.hs[i].local;
    forall p ensures Resolved(w, t.marked, l1, p) ==> ResolvedIn(w, t, p) {
    }
    forall p {:trigger ResolvedIn(w, t, p)} | ResolvedIn(w, s, p) ensures ResolvedIn(w, t, p) {
      if Resolved(w, s.marked, l, p) {
        assert Resolved(w, t.marked, l1, p);
      } else if j :| 0 <= j < |s.hs| && Pending(w, s.hs[j].local, p) {
        assert t.hs[j] == s.hs[j];
      }
    }
    forall o {:trigger o in t.marked} | o in t.marked && o !in s.marked && o in w.descr
      ensures AllResolvedIn(w, t, Range(w, o))
    {
      forall p {:trigger ResolvedIn(w, t, p)} | Candidate(w, Range(w, o), p) ensures ResolvedIn(w, t, p) {
        assert Resolved(w, t.marked, l1, p);
      }
    }
  }

  lemma AfterMarkKeeps(w: World, s: State, t: State, i: int)
    requires w.align > 0 && Grows(s, t, i) && DoAfterMark(s, t, i) && !t.invalid
    ensures KeepsIn(w, s, t) == true
  {
    var l := s.hs[i].local;
    if Share(s, t, i) && t.hs[i].local != l {
      var bottom := (|l| - 1) / 2;
      assert l == l[..bottom] + l[bottom..];
      ReturnKeeps(w, s, t, i, l[..bottom], l[bottom..]);
    } else if t.hs[i].local != l {
      assert l == l + [];
      ReturnKeeps(w, s, t, i, l, []);
    } else {
      SameWorkKeeps(w, s, t, i);
    }
  }

  /** A step that leaves helper i its stack and claims nothing. */
  lemma SameWorkKeeps(w: World, s: State, t: State, i: int)
    requires w.align > 0 && Grows(s, t, i) && t.marked == s.marked && t.hs[i].local == s.hs[i].local
    requires forall k {:trigger s.glob[k]} | 0 <= k < |s.glob| :: t.glob[k] == s.glob[k]
    ensures KeepsIn(w, s, t) == true
  {
    PassedOn(w, s, t, i);
  }

  lemma StepKeeps(w: World, s: State, t: State, i: int)
    requires w.align > 0 && Inv(s) && 0 <= i < |s.hs| && StepOf(w, s, t, i) && !t.invalid
    ensures KeepsIn(w, s, t) == true
  {
    StepGrows(w, s, t, i);
    if DoStealStore(s, t, i) {
      StealKeeps(w, s, t, i);
    } else if DoMark(w, s, t, i) {
      MarkingKeeps(w, s, t, i);
    } else if DoAfterMark(s, t, i) {
      AfterMarkKeeps(w, s, t, i);
    } else {
      assert HelperOk(s, s.hs[i]);
      SameWorkKeeps(w, s, t, i);
    }
  }

  // ------------------------------------------------------------------------------------ nothing more is marked

  /** MarkGraph.Precise for all the work there is. */
  ghost predicate PreciseIn(w: World, u: set<int>, s: State)
    requires w.align > 0
  {
    && (forall k {:trigger s.glob[k]} | 0 <= k < |s.glob| :: PreciseEntry(w, u, s.glob[k].entry))
    && (forall i {:trigger s.hs[i]} | 0 <= i < |s.hs| :: Precise(w, u, {}, s.hs[i].local))
    && Precise(w, u, s.marked, [])
  }

  lemma PreciseParts(w: World, u: set<int>, m: set<int>, s: seq<Entry>)
    requires w.align > 0
    ensures Precise(w, u, m, s) <==> Precise(w, u, m, []) && Precise(w, u, {}, s)
  {
  }

  /** The same entries, some of them or fewer copies. */
  lemma PreciseSome(w: World, u: set<int>, s: seq<Entry>, s1: seq<Entry>)
    requires w.align > 0 && Precise(w, u, {}, s) && forall e | e in s1 :: e in s
    ensures Precise(w, u, {}, s1)
  {
    forall k {:trigger PreciseEntry(w, u, s1[k])} | 0 <= k < |s1| ensures PreciseEntry(w, u, s1[k]) {
      assert s1[k] in s;
      var j :| 0 <= j < |s| && s[j] == s1[k];
    }
  }

  lemma ReturnPrecise(w: World, u: set<int>, s: State, back: seq<Entry>, t: State)
    requires w.align > 0 && PreciseIn(w, u, s) && Precise(w, u, {}, back) && t.glob == Returned(s, back).glob
    ensures forall k {:trigger t.glob[k]} | 0 <= k < |t.glob| :: PreciseEntry(w, u, t.glob[k].entry)
  {
    forall k {:trigger t.glob[k]} | 0 <= k < |t.glob| ensures PreciseEntry(w, u, t.glob[k].entry) {
      if k < |s.glob| {
        assert t.glob[k] == s.glob[k];
      } else {
        assert PreciseEntry(w, u, back[k - |s.glob|]);
      }
    }
  }

  lemma HelperPrecise(w: World, u: set<int>, s: State, t: State, i: int)
    requires w.align > 0 && Inv(s) && 0 <= i < |s.hs| && StepOf(w, s, t, i) && PreciseIn(w, u, s) && Grows(s, t, i)
    requires !DoMark(w, s, t, i) && !DoStealStore(s, t, i) && !DoAfterMark(s, t, i)
    ensures PreciseIn(w, u, t)
  {
    assert Precise(w, u, {}, s.hs[i].local);
    PreciseSome(w, u, s.hs[i].local, t.hs[i].local);
  }

  lemma StealPrecise(w: World, u: set<int>, s: State, t: State, i: int)
    requires w.align > 0 && Inv(s) && Grows(s, t, i) && DoStealStore(s, t, i) && PreciseIn(w, u, s)
    ensures PreciseIn(w, u, t)
  {
    var l, l1, e := s.hs[i].local, t.hs[i].local, s.glob[s.hs[i].pc.p].entry;
    assert Precise(w, u, {}, l);
    forall k {:trigger PreciseEntry(w, u, l1[k])} | 0 <= k < |l1| ensures PreciseEntry(w, u, l1[k]) {
      assert k < |l| ==> PreciseEntry(w, u, l[k]);
    }
  }

  lemma AfterMarkPrecise(w: World, u: set<int>, s: State, t: State, i: int)
    requires w.align > 0 && Grows(s, t, i) && DoAfterMark(s, t, i) && PreciseIn(w, u, s)
    ensures PreciseIn(w, u, t)
  {
    var l, l1 := s.hs[i].local, t.hs[i].local;
    if l1 == l && t.glob == s.glob {
      SamePrecise(w, u, s, t, i);
    } else {
      var n := |l| - |l1|;
      GaveBack(s, t, i);
      GivenPrecise(w, u, s, t, i, l[..n]);
    }
  }

  /** What a helper gives back is the lower part of its stack. */
  lemma GaveBack(s: State, t: State, i: int)
    requires Grows(s, t, i) && DoAfterMark(s, t, i) && !(t.hs[i].local == s.hs[i].local && t.glob == s.glob)
    ensures var l, l1 := s.hs[i].local, t.hs[i].local;
      |l1| <= |l| && l1 == l[|l| - |l1|..] && t.glob == Returned(s, l[..|l| - |l1|]).glob && t.marked == s.marked
  {
    var l, l1 := s.hs[i].local, t.hs[i].local;
    assert l[..|l|] == l && l[|l|..] == [];
  }

  lemma SamePrecise(w: World, u: set<int>, s: State, t: State, i: int)
    requires w.align > 0 && Grows(s, t, i) && t.marked == s.marked && PreciseIn(w, u, s)
    requires t.hs[i].local == s.hs[i].local && t.glob == s.glob
    ensures PreciseIn(w, u, t)
  {
    assert Precise(w, u, {}, s.hs[i].local);
  }

  lemma GivenPrecise(w: World, u: set<int>, s: State, t: State, i: int, back: seq<Entry>)
    requires w.align > 0 && Grows(s, t, i) && t.marked == s.marked && PreciseIn(w, u, s)
    requires t.glob == Returned(s, back).glob && (forall e | e in back + t.hs[i].local :: e in s.hs[i].local)
    ensures PreciseIn(w, u, t)
  {
    var l := s.hs[i].local;
    assert Precise(w, u, {}, l);
    forall e | e in back ensures e in l {
      assert e in back + t.hs[i].local;
    }
    forall e | e in t.hs[i].local ensures e in l {
      assert e in back + t.hs[i].local;
    }
    PreciseSome(w, u, l, back);
    ReturnPrecise(w, u, s, back, t);
    PreciseSome(w, u, l, t.hs[i].local);
  }

  lemma StepKeepsPrecise(w: World, u: set<int>, s: State, t: State, i: int)
    requires w.align > 0 && Inv(s) && 0 <= i < |s.hs| && StepOf(w, s, t, i) && PreciseIn(w, u, s)
    ensures PreciseIn(w, u, t)
  {
    StepGrows(w, s, t, i);
    if DoMark(w, s, t, i) {
      assert Precise(w, u, {}, s.hs[i].local);
      PreciseParts(w, u, s.marked, s.hs[i].local);
      PreciseParts(w, u, t.marked, t.hs[i].local);
    } else if DoStealStore(s, t, i) {
      StealPrecise(w, u, s, t, i);
    } else if DoAfterMark(s, t, i) {
      AfterMarkPrecise(w, u, s, t, i);
    } else {
      HelperPrecise(w, u, s, t, i);
    }
  }

  // --------------------------------------------------------------------------------------------- whole runs

  lemma MainStepKeeps(w: World, u: set<int>, s: State, t: State)
    requires w.align > 0 && MainStep(s, t)
    ensures (PreciseIn(w, u, s) ==> PreciseIn(w, u, t)) && KeepsIn(w, s, t) == true && t.invalid == s.invalid
  {
    forall p {:trigger ResolvedIn(w, t, p)} | ResolvedIn(w, s, p) ensures ResolvedIn(w, t, p) {
      assert PendingIn(w, s, p) ==> PendingIn(w, t, p);
    }
  }

  lemma NextKeeps(w: World, u: set<int>, s: State, t: State)
    requires w.align > 0 && Inv(s) && PreciseIn(w, u, s) && Next(w, s, t)
    ensures PreciseIn(w, u, t) && (t.invalid || (!s.invalid && KeepsIn(w, s, t) == true)) && s.marked <= t.marked
  {
    if MainStep(s, t) {
      MainStepKeeps(w, u, s, t);
    } else {
      var i :| 0 <= i < |s.hs| && StepOf(w, s, t, i);
      StepKeepsPrecise(w, u, s, t, i);
      if !t.invalid {
        StepKeeps(w, s, t, i);
      }
    }
  }

  lemma {:induction false} RunKeeps(w: World, u: set<int>, run: seq<State>, n: nat)
    requires w.align > 0 && Run(w, run) && Inv(run[0]) && PreciseIn(w, u, run[0]) && n < |run|
    ensures Inv(run[n]) && PreciseIn(w, u, run[n]) && run[0].marked <= run[n].marked
    ensures run[n].invalid || (!run[0].invalid && KeepsIn(w, run[0], run[n]) == true)
  {
    if n > 0 {
      RunKeeps(w, u, run, n - 1);
      StepKeepsInv(w, run[n - 1], run[n]);
      NextKeeps(w, u, run[n - 1], run[n]);
      if !run[n].invalid {
        KeepsInTrans(w, run[0], run[n - 1], run[n]);
      }
    }
  }

  /** GC_do_parallel_mark as a whole: when it is done all entries ever deposited are claimed, nobody holds work,
      and nobody is a helper any more.  Unless the global stack overflowed, nothing was lost; and nothing is marked
      that is not reachable. */
  lemma ParallelMarkIsComplete(w: World, u: set<int>, run: seq<State>, stack: seq<Entry>)
    requires w.align > 0 && Run(w, run) && Start(w, run[0], stack) && Precise(w, u, run[0].marked, stack)
    ensures var last := run[|run| - 1];
      && (last.main.Done? ==> Quiet(last) && forall i | 0 <= i < |last.hs| :: last.hs[i].pc.Outside?)
      && (last.main.Done? && !last.invalid ==> Keeps(w, run[0].marked, stack, last.marked, []))
      && Precise(w, u, last.marked, []) && run[0].marked <= last.marked
  {
    var s, t := run[0], run[|run| - 1];
    StartInv(w, s, stack);
    assert PreciseIn(w, u, s) by {
      PreciseParts(w, u, s.marked, stack);
    }
    RunKeeps(w, u, run, |run| - 1);
    if t.main.Done? {
      forall i | 0 <= i < |t.hs| ensures t.hs[i].pc.Outside? {
        NoneActive(t.hs, i);
      }
      if !t.invalid {
        QuietResolved(w, t);
        forall p {:trigger Resolved(w, t.marked, [], p)} | Resolved(w, s.marked, stack, p) ensures Resolved(w, t.marked, [], p) {
          if k :| 0 <= k < |stack| && Candidate(w, stack[k], p) {
            assert s.glob[k].entry == stack[k];
          }
          assert ResolvedIn(w, s, p);
          assert ResolvedIn(w, t, p);
        }
        forall o {:trigger o in t.marked} | o in t.marked && o !in s.marked && o in w.descr
          ensures AllResolved(w, t.marked, [], Range(w, o))
        {
          forall p {:trigger Resolved(w, t.marked, [], p)} | Candidate(w, Range(w, o), p) ensures Resolved(w, t.marked, [], p) {
            assert ResolvedIn(w, t, p);
          }
        }
      }
    }
  }

  /** A round of GC_mark_from on the local stack is a marking step. */
  lemma RoundIsMarking(w: World, cap: nat, s: State, i: int)
    requires 0 <= i < |s.hs| && s.hs[i].pc.Marking? && s.hs[i].local != []
    requires Ok(w, cap, Sim(s.marked, s.hs[i].local, false)) == true
    ensures var s1 := Top(w, cap, Sim(s.marked, s.hs[i].local, false));
      DoMark(w, s, s.(marked := s1.marked, invalid := s.invalid || s1.over, hs := s.hs[i := s.hs[i].(local := s1.stk)]), i)
  {
    var s0 := Sim(s.marked, s.hs[i].local, false);
    var s1 := Top(w, cap, s0);
    TopStep(w, cap, s0);
    forall u {:trigger Precise(w, u, s1.marked, s1.stk)} | Precise(w, u, s.marked, s.hs[i].local)
      ensures Precise(w, u, s1.marked, s1.stk)
    {
      TopPrecise(w, u, cap, s0);
    }
  }

  /** With GC_do_parallel_mark in the place of marking from the stack, GC_mark_some finishes in state MS_ROOTS_PUSHED
      with exactly the reachable objects marked, if nothing was dropped.  Otherwise what is marked is reachable, and
      the state MS_INVALID is as Marker.Inv wants it. */
  lemma ParallelMarkSome(w: World, u: set<int>, run: seq<State>, stack: seq<Entry>)
    requires Good(w) && Run(w, run) && Start(w, run[0], stack) && u <= run[0].marked
    requires AllScanned(w, run[0].marked, stack) == true && RootsDone(w, run[0].marked, stack) == true
    requires Precise(w, u, run[0].marked, stack) && run[|run| - 1].main.Done?
    ensures var last := run[|run| - 1];
      && Precise(w, u, last.marked, []) && u <= last.marked
      && (!last.invalid ==> forall o :: o in last.marked <==> Reachable(w, u, o))
  {
    var s, t := run[0], run[|run| - 1];
    ParallelMarkIsComplete(w, u, run, stack);
    if !t.invalid {
      KeepsScanned(w, s.marked, stack, t.marked, [], 0);
      forall o | o in t.marked ensures o in w.descr {
        assert Reachable(w, u, o);
      }
      MarkedIsReachable(w, u, t.marked);
    }
  }

  lemma QuietResolved(w: World, s: State)
    requires w.align > 0 && Quiet(s)
    ensures forall p {:trigger ResolvedIn(w, s, p)} | ResolvedIn(w, s, p) :: Resolved(w, s.marked, [], p)
  {
    forall p {:trigger ResolvedIn(w, s, p)} | ResolvedIn(w, s, p) ensures Resolved(w, s.marked, [], p) {
      if PendingIn(w, s, p) {
        if i :| 0 <= i < |s.hs| && Pending(w, s.hs[i].local, p) {
          assert s.hs[i].local == [];
        }
      }
    }
  }

  // ------------------------------------------------------------------------------------------- no deadlock

  lemma {:induction false} SomeHelper(hs: seq<Helper>) returns (i: int)
    requires CountHelpers(hs) > 0
    ensures 0 <= i < |hs| && IsHelper(hs[i])
  {
    if IsHelper(hs[0]) {
      i := 0;
    } else {
      i := SomeHelper(hs[1..]);
      i := i + 1;
    }
  }

  lemma {:induction false} SomeActive(hs: seq<Helper>) returns (i: int)
    requires CountActive(hs) > 0
    ensures 0 <= i < |hs| && IsActive(hs[i])
  {
    if IsActive(hs[0]) {
      i := 0;
    } else {
      i := SomeActive(hs[1..]);
      i := i + 1;
    }
  }

  /** Helper i can go on to another program point, and does not wait for a notification that was not given. */
  ghost predicate CanMove(w: World, s: State, i: int)
    requires w.align > 0 && 0 <= i < |s.hs|
  {
    (s.hs[i].pc.Wait? ==> i in s.notified) && exists t :: StepOf(w, s, t, i) && t.hs[i].pc != s.hs[i].pc
  }

  lemma ActiveMoves(w: World, s: State, i: int)
    requires w.align > 0 && Inv(s) && 0 <= i < |s.hs| && IsActive(s.hs[i])
    ensures CanMove(w, s, i)
  {
    var h, top := s.hs[i], |s.glob| - 1;
    assert HelperOk(s, h);
    if h.pc.CheckEmpty? && top - h.myFirst + 1 == 0 {
      DecideMoves(if s.active - 1 == 0 then s.(notified := Interval(0, |s.hs|)) else s, i, s.active - 1);
      assert exists t :: DoCheckEmpty(s, t, i) && t.hs[i].pc != s.hs[i].pc;
    } else if h.pc.Marking? {
      var t := s.(hs := s.hs[i := h.(pc := AfterMark)]);
      assert DoMark(w, s, t, i);
    } else if h.pc.AfterMark? {
      AfterMarkMoves(w, s, i);
    } else {
      WorkMoves(w, s, i);
    }
  }

  lemma DecideMoves(s: State, i: int, n: int)
    requires 0 <= i < |s.hs|
    ensures exists t :: Decide(s, t, i, n) && (t.hs[i].pc.Outside? || t.hs[i].pc.LoadFirst? || (n > 0 && t.hs[i].pc.Wait?))
  {
    var h := s.hs[i];
    var t := if n > 0 && s.first > |s.glob| - 1
             then s.(active := n, hs := s.hs[i := h.(pc := Wait)], notified := s.notified - {i})
             else if n == 0 && s.first > |s.glob| - 1
             then s.(active := n, helpers := s.helpers - 1, hs := s.hs[i := h.(pc := Outside)])
             else s.(active := n + 1, hs := s.hs[i := h.(pc := LoadFirst)]);
    assert Decide(s, t, i, n);
  }

  lemma AfterMarkMoves(w: World, s: State, i: int)
    requires w.align > 0 && 0 <= i < |s.hs| && s.hs[i].pc.AfterMark?
    ensures CanMove(w, s, i)
  {
    var h := s.hs[i];
    var t := if h.local == [] then s.(hs := s.hs[i := h.(pc := LoadFirst)])
             else if |h.local| - 1 >= LOCAL_MARK_STACK_SIZE / 2
             then Returned(s, h.local).(hs := s.hs[i := h.(pc := LoadFirst, local := [])])
             else s.(hs := s.hs[i := h.(pc := Marking)]);
    assert DoAfterMark(s, t, i);
  }

  /** The other program points of an active helper. */
  lemma WorkMoves(w: World, s: State, i: int)
    requires w.align > 0 && Inv(s) && 0 <= i < |s.hs| && IsActive(s.hs[i])
    requires !s.hs[i].pc.Marking? && !s.hs[i].pc.AfterMark?
    requires s.hs[i].pc.CheckEmpty? ==> |s.glob| - s.hs[i].myFirst != 0
    ensures CanMove(w, s, i)
  {
    var h, pc, top := s.hs[i], s.hs[i].pc, |s.glob| - 1;
    assert HelperOk(s, h);
    match pc {
      case LoadFirst =>
        assert DoLoadFirst(s, s.(hs := s.hs[i := h.(pc := Sync(s.first))]), i);
      case Sync(g) =>
        var t := if h.myFirst < g then s.(hs := s.hs[i := h.(pc := ReadTop, myFirst := g)])
                 else if g < h.myFirst && s.first == g then s.(first := h.myFirst, hs := s.hs[i := h.(pc := ReadTop)])
                 else s.(hs := s.hs[i := h.(pc := ReadTop)]);
        assert DoSync(s, t, i);
      case ReadTop =>
        var t := s.(hs := s.hs[i := if top - h.myFirst + 1 == 0 then h.(pc := CheckEmpty) else StartSteal(h, top)]);
        assert DoReadTop(s, t, i);
      case CheckEmpty =>
        assert DoCheckEmpty(s, s.(hs := s.hs[i := StartSteal(h, top)]), i);
      case StealLoad(p, hi, cnt, max) =>
        var h1 := if p <= hi && cnt <= max
                  then h.(pc := if s.glob[p].claimed then StealLoad(p + 1, hi, cnt, max) else StealStore(p, hi, cnt, max))
                  else h.(pc := Marking, myFirst := p);
        assert DoStealLoad(s, s.(hs := s.hs[i := h1]), i);
      case StealStore(p, hi, cnt, max) =>
        var e := s.glob[p].entry;
        var t := s.(glob := s.glob[p := Slot(e, true)],
                    hs := s.hs[i := h.(pc := StealLoad(p + 1, hi, cnt + 1 + e.len / 256, max), local := h.local + [e])]);
        assert DoStealStore(s, t, i);
      case _ =>
    }
  }

  /** Until the initiator is done somebody can always go on; in particular no notification is missed. */
  lemma NoDeadlock(w: World, s: State)
    requires w.align > 0 && Inv(s) && 0 < |s.hs| && !s.main.Done?
    ensures (exists t :: MainStep(s, t)) || (exists i :: 0 <= i < |s.hs| && CanMove(w, s, i))
  {
    if s.main.Closing? && s.helpers <= 0 {
      assert MainStep(s, s.(main := Done));
    } else if s.main.Helping? && s.hs[0].pc.Outside? {
      assert MainStep(s, s.(main := Closing));
    } else {
      NoneActive(s.hs, 0);
      var i := SomeHelper(s.hs);
      if s.active > 0 {
        i := SomeActive(s.hs);
        ActiveMoves(w, s, i);
      } else {
        NoneActive(s.hs, i);
        WaiterMoves(w, s, i);
      }
    }
  }

  lemma WaiterMoves(w: World, s: State, i: int)
    requires w.align > 0 && Inv(s) && 0 <= i < |s.hs| && s.active == 0 && (s.hs[i].pc.Wait? || s.hs[i].pc.Enter?)
    ensures CanMove(w, s, i)
  {
    var h := s.hs[i];
    if h.pc.Enter? {
      assert DoEnter(s, s.(active := s.active + 1, hs := s.hs[i := h.(pc := LoadFirst, myFirst := s.first)]), i);
    } else {
      DecideMoves(s, i, 0);
      var t :| Decide(s, t, i, 0) && (t.hs[i].pc.Outside? || t.hs[i].pc.LoadFirst?);
      assert DoWake(s, t, i);
    }
  }

  // ---------------------------------------------------------------------------------------------- load sharing

  /** The entries on the global stack that nobody has claimed. */
  function Unclaimed(g: seq<Slot>): seq<Entry> {
    if g == [] then [] else (if g[0].claimed then [] else [g[0].entry]) + Unclaimed(g[1..])
  }

  lemma {:induction false} UnclaimedAppend(g: seq<Slot>, back: seq<Entry>)
    ensures Unclaimed(g + seq(|back|, k requires 0 <= k < |back| => Slot(back[k], false))) == Unclaimed(g) + back
  {
    var more := seq(|back|, k requires 0 <= k < |back| => Slot(back[k], false));
    if g != [] {
      assert (g + more)[1..] == g[1..] + more;
      UnclaimedAppend(g[1..], back);
    } else if back != [] {
      assert g + more == more;
      var rest := seq(|back| - 1, k requires 0 <= k < |back| - 1 => Slot(back[1..][k], false));
      assert more[1..] == rest && [] + rest == rest;
      UnclaimedAppend([], back[1..]);
      assert back == [back[0]] + back[1..];
    } else {
      assert g + more == [];
    }
  }

  /** Giving back all or half of a local stack neither loses nor duplicates an entry. */
  lemma SharingConserves(s: State, t: State, i: int)
    requires 0 <= i < |s.hs| && DoAfterMark(s, t, i) && !t.invalid
    ensures multiset(Unclaimed(t.glob)) + multiset(t.hs[i].local) == multiset(Unclaimed(s.glob)) + multiset(s.hs[i].local)
  {
    var l, l1 := s.hs[i].local, t.hs[i].local;
    if l1 != l {
      AfterMarkGrows(s, t, i);
      GaveBack(s, t, i);
      var n := |l| - |l1|;
      assert l == l[..n] + l[n..];
      UnclaimedAppend(s.glob, l[..n]);
    }
  }

  lemma AfterMarkGrows(s: State, t: State, i: int)
    requires 0 <= i < |s.hs| && DoAfterMark(s, t, i)
    ensures Grows(s, t, i)
  {
  }
}
