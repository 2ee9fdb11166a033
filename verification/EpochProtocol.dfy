/** Writers and deleters sharing one epoch tracker, in every interleaving. A writer follows
    Store.WriteToShard: StartWrite, wait for each returned guard that matches its points,
    write, EndWrite. A deleter follows Store.DeleteSeries: WaitDelete, Wait, delete, Done.
    EndWrite holds the tracker's mutex while it notifies the pending deletes one by one, so
    a notified deleter may run before EndWrite returns; Done removes the delete under the
    mutex and signals its guard afterwards. Both are modelled as separate steps. */
module EpochProtocol {
  import opened Optional
  import opened Guards
  import opened EpochTracking

  /** `Waiting(rest)`: the guards not yet passed, in the order StartWrite returned them. */
  datatype WritePhase = Waiting(rest: seq<nat>) | Writing | Ending | WriteDone
  datatype Write = Write(points: seq<Point>, phase: WritePhase)

  datatype DeletePhase = Draining | Deleting | Removed | DeleteDone
  datatype Delete = Delete(guard: Guard, phase: DeletePhase)

  /** Held by a write inside EndWrite; `before` is the tracker as it was when it locked. */
  datatype Mutex = Free | Held(gen: nat, todo: set<nat>, before: Tracker)

  /** Operations are named by their generation. */
  datatype State = State(tracker: Tracker, writes: map<nat, Write>, deletes: map<nat, Delete>, mutex: Mutex)

  datatype Step =
    | StartWrite(points: seq<Point>, order: seq<nat>)
    | WaitDelete(guard: Guard)
    | PassGuard(w: nat)
    | BeginWrite(w: nat)
    | LockEnd(w: nat)
    | Notify(d: nat)
    | UnlockEnd
    | WaitReturns(d: nat)
    | Remove(d: nat)
    | Signal(d: nat)

  predicate Arrival(step: Step) {
    step.StartWrite? || step.WaitDelete?
  }

  ghost predicate Conflict(s: State, w: nat, d: nat)
    requires w in s.writes && d in s.deletes
  {
    MatchesAny(Some(s.deletes[d].guard), s.writes[w].points)
  }

  function SetWrite(s: State, w: nat, phase: WritePhase): State
    requires w in s.writes
  {
    s.(writes := s.writes[w := s.writes[w].(phase := phase)])
  }

  function SetDelete(s: State, d: nat, phase: DeletePhase): State
    requires d in s.deletes
  {
    s.(deletes := s.deletes[d := s.deletes[d].(phase := phase)])
  }

  ghost predicate Enabled(s: State, step: Step) {
    match step
    case StartWrite(_, order) => s.mutex.Free? && multiset(order) == multiset(s.tracker.deletes.Keys)
    case WaitDelete(_) => s.mutex.Free?
    case PassGuard(w) =>
      w in s.writes && s.writes[w].phase.Waiting? && s.writes[w].phase.rest != []
      && var d := s.writes[w].phase.rest[0];
         d in s.deletes && (!Conflict(s, w, d) || s.deletes[d].phase.DeleteDone?)
    case BeginWrite(w) => w in s.writes && s.writes[w].phase == Waiting([])
    case LockEnd(w) => w in s.writes && s.writes[w].phase.Writing? && s.mutex.Free?
    case Notify(d) => s.mutex.Held? && d in s.mutex.todo && d in s.tracker.deletes
    case UnlockEnd => s.mutex.Held? && s.mutex.todo == {} && s.mutex.gen in s.writes
    case WaitReturns(d) =>
      d in s.deletes && s.deletes[d].phase.Draining? && d in s.tracker.deletes && s.tracker.deletes[d].pending <= 0
    case Remove(d) => d in s.deletes && s.deletes[d].phase.Deleting? && s.mutex.Free?
    case Signal(d) => d in s.deletes && s.deletes[d].phase.Removed?
  }

  ghost function Apply(s: State, step: Step): (s': State)
    requires Enabled(s, step)
  {
    match step
    case StartWrite(points, order) =>
      s.(tracker := AfterStartWrite(s.tracker),
         writes := s.writes[s.tracker.epoch + 1 := Write(points, Waiting(order))])
    case WaitDelete(guard) =>
      s.(tracker := AfterWaitDelete(s.tracker, guard),
         deletes := s.deletes[s.tracker.epoch + 1 := Delete(guard, Draining)])
    case PassGuard(w) => SetWrite(s, w, Waiting(s.writes[w].phase.rest[1..]))
    case BeginWrite(w) => SetWrite(s, w, Writing)
    case LockEnd(w) => SetWrite(s, w, Ending).(mutex := Held(w, ToNotify(s.tracker, w), s.tracker))
    case Notify(d) => s.(tracker := Notified(s.tracker, {d}), mutex := s.mutex.(todo := s.mutex.todo - {d}))
    case UnlockEnd =>
      SetWrite(s, s.mutex.gen, WriteDone).(tracker := s.tracker.(writes := s.tracker.writes - 1), mutex := Free)
    case WaitReturns(d) => SetDelete(s, d, Deleting)
    case Remove(d) => SetDelete(s, d, Removed).(tracker := AfterRemove(s.tracker, d))
    case Signal(d) => SetDelete(s, d, DeleteDone)
  }

  const INIT := State(EMPTY_TRACKER, map[], map[], Free)

  // ---------- the invariant ----------

  ghost function Unfinished(s: State): (ws: set<nat>) {
    set w | w in s.writes && !s.writes[w].phase.WriteDone?
  }

  /** The writes delete d still has to hear from. */
  ghost function Awaited(s: State, d: nat): (ws: set<nat>) {
    set w | w in Unfinished(s) && w < d && !(s.mutex.Held? && s.mutex.gen == w && d !in s.mutex.todo)
  }

  predicate Installed(s: State, d: nat) {
    d in s.deletes && (s.deletes[d].phase.Draining? || s.deletes[d].phase.Deleting?)
  }

  ghost predicate InvGenerations(s: State) {
    && (forall g :: g in s.writes ==> g <= s.tracker.epoch && g !in s.deletes)
    && (forall g :: g in s.deletes ==> g <= s.tracker.epoch)
    && (forall d :: d in s.tracker.deletes <==> Installed(s, d))
    && (forall d :: d in s.tracker.deletes ==>
          d <= s.tracker.largest && s.tracker.deletes[d].guard == s.deletes[d].guard)
  }

  ghost predicate InvCounts(s: State) {
    && s.tracker.writes == |Unfinished(s)|
    && (forall d :: d in s.tracker.deletes ==> s.tracker.deletes[d].pending == |Awaited(s, d)|)
    && (forall d :: d in s.deletes && s.deletes[d].phase.Deleting? ==> Awaited(s, d) == {})
  }

  ghost predicate InvGuards(s: State) {
    && (forall w :: w in s.writes && s.writes[w].phase.Waiting? ==>
          forall i :: 0 <= i < |s.writes[w].phase.rest| ==>
            s.writes[w].phase.rest[i] in s.deletes && s.writes[w].phase.rest[i] < w)
    && (forall w, d :: w in s.writes && Installed(s, d) && d < w && Conflict(s, w, d) ==>
          s.writes[w].phase.Waiting? && d in s.writes[w].phase.rest)
  }

  /** Half-way through EndWrite the tracker is the locked one with exactly the deletes
      already served notified, so completing the loop in any order gives AfterEndWrite. */
  ghost predicate InvMutex(s: State) {
    && (forall w :: w in s.writes ==> (s.writes[w].phase.Ending? <==> s.mutex.Held? && s.mutex.gen == w))
    && (s.mutex.Held? ==>
          && s.mutex.gen in s.writes
          && s.mutex.todo <= ToNotify(s.mutex.before, s.mutex.gen)
          && s.tracker == Notified(s.mutex.before, ToNotify(s.mutex.before, s.mutex.gen) - s.mutex.todo))
  }

  ghost predicate Inv(s: State) {
    InvGenerations(s) && InvCounts(s) && InvGuards(s) && InvMutex(s)
  }

  lemma InitInv()
    ensures Inv(INIT)
  {
  }

  lemma StepKeepsGenerations(s: State, step: Step)
    requires Inv(s) && Enabled(s, step)
    ensures InvGenerations(Apply(s, step))
  {
    hide InvCounts, InvGuards, InvMutex, Conflict, ToNotify;
  }

  lemma StepKeepsMutex(s: State, step: Step)
    requires Inv(s) && Enabled(s, step)
    ensures InvMutex(Apply(s, step))
  {
    hide InvCounts, InvGuards, Conflict;
    var s' := Apply(s, step);
    match step
    case LockEnd(w) =>
      assert Notified(s.tracker, {}).deletes == s.tracker.deletes;
      var all := ToNotify(s.tracker, w);
      assert all - all == {};
    case Notify(d) =>
      var all := ToNotify(s.mutex.before, s.mutex.gen);
      NotifyOneMore(s.mutex.before, all - s.mutex.todo, d);
      assert (all - s.mutex.todo) + {d} == all - s'.mutex.todo;
    case _ =>
  }

  lemma GuardsAfterStartWrite(s: State, step: Step)
    requires Inv(s) && Enabled(s, step) && step.StartWrite?
    ensures InvGuards(Apply(s, step))
  {
    hide InvCounts, InvMutex;
    forall d ensures d in step.order <==> d in s.tracker.deletes {
      assert d in step.order <==> d in multiset(step.order);
    }
    forall i | 0 <= i < |step.order| ensures step.order[i] in s.tracker.deletes {
      assert step.order[i] in step.order;
    }
    var s' := Apply(s, step);
    forall w: nat, d: nat | w in s'.writes && Installed(s', d) && d < w && Conflict(s', w, d)
      ensures s'.writes[w].phase.Waiting? && d in s'.writes[w].phase.rest
    {
      assert Installed(s, d);
      if w in s.writes {
        assert w <= s.tracker.epoch && Conflict(s, w, d);
      }
    }
  }

  lemma GuardsAfterPassGuard(s: State, step: Step)
    requires Inv(s) && Enabled(s, step) && step.PassGuard?
    ensures InvGuards(Apply(s, step))
  {
    hide InvCounts;
    var s', w := Apply(s, step), step.w;
    var rest := s.writes[w].phase.rest;
    assert forall i :: 0 <= i < |rest[1..]| ==> rest[1..][i] == rest[i + 1];
    forall v: nat, d: nat | v in s'.writes && Installed(s', d) && d < v && Conflict(s', v, d)
      ensures s'.writes[v].phase.Waiting? && d in s'.writes[v].phase.rest
    {
      assert Installed(s, d) && Conflict(s, v, d);
      if v == w { assert d in rest && d != rest[0]; }
    }
  }

  lemma StepKeepsGuards(s: State, step: Step)
    requires Inv(s) && Enabled(s, step)
    ensures InvGuards(Apply(s, step))
  {
    hide Inv, InvGuards, Enabled, Apply;
    match step
    case StartWrite(_, _) => GuardsAfterStartWrite(s, step);
    case PassGuard(_) => GuardsAfterPassGuard(s, step);
    case _ => GuardsAfterOther(s, step);
  }

  lemma GuardsAfterOther(s: State, step: Step)
    requires Inv(s) && Enabled(s, step) && !step.StartWrite? && !step.PassGuard?
    ensures InvGuards(Apply(s, step))
  {
    hide InvCounts;
    var s' := Apply(s, step);
    forall w: nat, d: nat | w in s'.writes && Installed(s', d) && d < w && Conflict(s', w, d)
      ensures s'.writes[w].phase.Waiting? && d in s'.writes[w].phase.rest
    {
      assert w in s.writes && Installed(s, d) && Conflict(s, w, d);
    }
  }

  lemma CountsAfterStartWrite(s: State, step: Step)
    requires Inv(s) && Enabled(s, step) && step.StartWrite?
    ensures InvCounts(Apply(s, step))
  {
    var s' := Apply(s, step);
    assert Unfinished(s') == Unfinished(s) + {s.tracker.epoch + 1};
    forall d | d in s'.deletes ensures Awaited(s', d) == Awaited(s, d) { }
  }

  lemma CountsAfterWaitDelete(s: State, step: Step)
    requires Inv(s) && Enabled(s, step) && step.WaitDelete?
    ensures InvCounts(Apply(s, step))
  {
    var s' := Apply(s, step);
    assert Unfinished(s') == Unfinished(s);
    forall d | d in s.deletes ensures Awaited(s', d) == Awaited(s, d) { }
    assert Awaited(s', s.tracker.epoch + 1) == Unfinished(s);
  }

  lemma CountsAfterNotify(s: State, step: Step)
    requires Inv(s) && Enabled(s, step) && step.Notify?
    ensures InvCounts(Apply(s, step))
  {
    var s', d := Apply(s, step), step.d;
    assert Unfinished(s') == Unfinished(s);
    assert Awaited(s, d) == Awaited(s', d) + {s.mutex.gen};
    forall x | x in s'.deletes && x != d ensures Awaited(s', x) == Awaited(s, x) { }
  }

  lemma CountsAfterUnlockEnd(s: State, step: Step)
    requires Inv(s) && Enabled(s, step) && step.UnlockEnd?
    ensures InvCounts(Apply(s, step))
  {
    var s' := Apply(s, step);
    assert Unfinished(s) == Unfinished(s') + {s.mutex.gen};
    forall d | d in s'.deletes ensures Awaited(s', d) == Awaited(s, d) { }
  }

  /** The remaining steps leave every delete waiting for the same writes: locking postpones
      the notifications, and the largest-generation shortcut skips none that is due. */
  lemma CountsAfterOther(s: State, step: Step)
    requires Inv(s) && Enabled(s, step)
    requires !Arrival(step) && !step.Notify? && !step.UnlockEnd?
    ensures InvCounts(Apply(s, step))
  {
    var s' := Apply(s, step);
    assert Unfinished(s') == Unfinished(s);
    forall d | Installed(s, d) ensures Awaited(s', d) == Awaited(s, d) {
      if step.LockEnd? {
        assert step.w < d ==> d in ToNotify(s.tracker, step.w);
      }
    }
  }

  lemma StepKeepsCounts(s: State, step: Step)
    requires Inv(s) && Enabled(s, step)
    ensures InvCounts(Apply(s, step))
  {
    match step
    case StartWrite(_, _) => CountsAfterStartWrite(s, step);
    case WaitDelete(_) => CountsAfterWaitDelete(s, step);
    case Notify(_) => CountsAfterNotify(s, step);
    case UnlockEnd => CountsAfterUnlockEnd(s, step);
    case _ => CountsAfterOther(s, step);
  }

  lemma StepKeepsInv(s: State, step: Step)
    requires Inv(s) && Enabled(s, step)
    ensures Inv(Apply(s, step))
  {
    StepKeepsGenerations(s, step);
    StepKeepsMutex(s, step);
    StepKeepsGuards(s, step);
    StepKeepsCounts(s, step);
  }

  // ---------- safety over every run ----------

  ghost predicate IsRun(run: seq<State>, steps: seq<Step>) {
    && |run| == |steps| + 1
    && run[0] == INIT
    && forall i :: 0 <= i < |steps| ==> StepAt(run, steps, i)
  }

  ghost predicate StepAt(run: seq<State>, steps: seq<Step>, i: nat)
    requires |run| == |steps| + 1 && i < |steps|
  {
    Enabled(run[i], steps[i]) && run[i + 1] == Apply(run[i], steps[i])
  }

  lemma {:induction false} RunKeepsInv(run: seq<State>, steps: seq<Step>, i: nat)
    requires IsRun(run, steps) && i < |run|
    ensures Inv(run[i])
  {
    if i > 0 {
      RunKeepsInv(run, steps, i - 1);
      assert StepAt(run, steps, i - 1);
      StepKeepsInv(run[i - 1], steps[i - 1]);
    } else {
      InitInv();
    }
  }

  /** While delete d runs, every write that entered the tracker before it is past its write
      phase, and every later write whose points its guard matches has not started writing. */
  lemma MutualExclusion(run: seq<State>, steps: seq<Step>, i: nat, w: nat, d: nat)
    requires IsRun(run, steps) && i < |run|
    requires w in run[i].writes && d in run[i].deletes && run[i].deletes[d].phase.Deleting?
    ensures w < d ==> run[i].writes[w].phase.Ending? || run[i].writes[w].phase.WriteDone?
    ensures w > d && Conflict(run[i], w, d) ==> run[i].writes[w].phase.Waiting?
    ensures run[i].writes[w].phase.Writing? ==> w > d && !Conflict(run[i], w, d)
  {
    RunKeepsInv(run, steps, i);
    var s := run[i];
    assert Installed(s, d);
    assert w !in Awaited(s, d);
  }

  /** The counter a delete waits on is the number of earlier writes that have not notified
      it; writes that start after the delete never enter into it. */
  lemma PendingIsEarlierWrites(run: seq<State>, steps: seq<Step>, i: nat, d: nat)
    requires IsRun(run, steps) && i < |run|
    requires d in run[i].tracker.deletes
    ensures run[i].tracker.deletes[d].pending == |Awaited(run[i], d)|
    ensures forall w :: w in Awaited(run[i], d) ==> w < d && w in Unfinished(run[i])
  {
    RunKeepsInv(run, steps, i);
  }

  /** When a write unlocks, the whole of its EndWrite has been one AfterEndWrite, whatever
      the order in which it met the pending deletes. */
  lemma EndWriteIsAtomic(run: seq<State>, steps: seq<Step>, i: nat)
    requires IsRun(run, steps) && i < |steps|
    requires steps[i].UnlockEnd?
    ensures run[i].mutex.Held?
    ensures run[i + 1].tracker == AfterEndWrite(run[i].mutex.before, run[i].mutex.gen)
  {
    assert StepAt(run, steps, i);
    RunKeepsInv(run, steps, i);
    var all := ToNotify(run[i].mutex.before, run[i].mutex.gen);
    assert all - run[i].mutex.todo == all;
  }

  // ---------- progress ----------

  predicate Pending(s: State, g: nat) {
    (g in s.writes && !s.writes[g].phase.WriteDone?) || (g in s.deletes && !s.deletes[g].phase.DeleteDone?)
  }

  ghost predicate AllFinished(s: State) {
    forall g: nat :: !Pending(s, g)
  }

  /** What operation g (or the holder of the mutex) does next. */
  ghost function Move(s: State, g: nat): (step: Step) {
    if s.mutex.Held? then
      if s.mutex.todo == {} then UnlockEnd
      else var d :| d in s.mutex.todo; Notify(d)
    else if g in s.writes then
      match s.writes[g].phase
      case Waiting(rest) => if rest == [] then BeginWrite(g) else PassGuard(g)
      case _ => LockEnd(g)
    else if g in s.deletes then
      match s.deletes[g].phase
      case Draining => WaitReturns(g)
      case Deleting => Remove(g)
      case _ => Signal(g)
    else UnlockEnd
  }

  /** Every wait is on a strictly smaller generation, so the oldest operation in flight is
      never blocked by another one. */
  lemma OldestCanMove(s: State, g: nat)
    requires Inv(s) && Pending(s, g)
    requires forall h: nat :: h < g ==> !Pending(s, h)
    ensures Enabled(s, Move(s, g)) && !Arrival(Move(s, g))
  {
    if s.mutex.Free? && g in s.deletes && s.deletes[g].phase.Draining? {
      forall w | w in Awaited(s, g) ensures false {
        assert Pending(s, w);
      }
      assert Awaited(s, g) == {};
      assert Installed(s, g);
    } else if s.mutex.Free? && g in s.writes && s.writes[g].phase.Waiting? && s.writes[g].phase.rest != [] {
      assert !Pending(s, s.writes[g].phase.rest[0]);
    }
  }

  lemma {:induction false} OldestExists(s: State, g: nat) returns (oldest: nat)
    requires Pending(s, g)
    ensures Pending(s, oldest) && forall h: nat :: h < oldest ==> !Pending(s, h)
  {
    oldest := g;
    if h :| 0 <= h < g && Pending(s, h) {
      oldest := OldestExists(s, h);
    }
  }

  function StepsLeft(s: State, g: nat): (n: nat) {
    (if g !in s.writes then 0
     else match s.writes[g].phase
          case Waiting(rest) => |rest| + 3
          case Writing => 2
          case Ending => 1
          case WriteDone => 0)
    + (if g !in s.deletes then 0
       else match s.deletes[g].phase
            case Draining => 3
            case Deleting => 2
            case Removed => 1
            case DeleteDone => 0)
  }

  function Work(s: State, upTo: nat): (n: nat) {
    StepsLeft(s, upTo) + if upTo == 0 then 0 else Work(s, upTo - 1)
  }

  function Todo(s: State): (n: nat) {
    if s.mutex.Held? then |s.mutex.todo| else 0
  }

  lemma {:induction false} WorkOfOne(s: State, s': State, g: nat, upTo: nat)
    requires forall h: nat :: h != g ==> StepsLeft(s', h) == StepsLeft(s, h)
    ensures Work(s', upTo) - Work(s, upTo) == if g <= upTo then StepsLeft(s', g) - StepsLeft(s, g) else 0
  {
    if upTo > 0 { WorkOfOne(s, s', g, upTo - 1); }
  }

  /** Every step other than a new arrival uses up work: without arrivals, no schedule can go
      on forever. */
  lemma StepUsesUpWork(s: State, step: Step)
    requires Inv(s) && Enabled(s, step) && !Arrival(step)
    ensures var s' := Apply(s, step);
            s'.tracker.epoch == s.tracker.epoch
            && (Work(s', s.tracker.epoch) < Work(s, s.tracker.epoch)
                || (Work(s', s.tracker.epoch) == Work(s, s.tracker.epoch) && Todo(s') < Todo(s)))
  {
    hide InvCounts, InvGuards, Conflict, Work;
    var s' := Apply(s, step);
    var g := match step
      case PassGuard(w) => w
      case BeginWrite(w) => w
      case LockEnd(w) => w
      case UnlockEnd => s.mutex.gen
      case WaitReturns(d) => d
      case Remove(d) => d
      case Signal(d) => d
      case _ => 0;
    WorkOfOne(s, s', g, s.tracker.epoch);
  }

  /** From every reachable state, running the operations already in the system leads to a
      state where all of them have finished: the protocol cannot deadlock. */
  lemma {:induction false} EverythingCanFinish(s: State) returns (run: seq<State>, steps: seq<Step>)
    requires Inv(s)
    ensures |run| == |steps| + 1 && run[0] == s
    ensures forall i :: 0 <= i < |steps| ==> !Arrival(steps[i]) && StepAt(run, steps, i)
    ensures AllFinished(run[|run| - 1])
    decreases Work(s, s.tracker.epoch), Todo(s)
  {
    hide Inv, Work, Todo, Enabled, Apply;
    if g :| Pending(s, g) {
      var oldest := OldestExists(s, g);
      OldestCanMove(s, oldest);
      var step := Move(s, oldest);
      StepUsesUpWork(s, step);
      StepKeepsInv(s, step);
      var rest, restSteps := EverythingCanFinish(Apply(s, step));
      run, steps := [s] + rest, [step] + restSteps;
      forall i | 0 <= i < |steps| ensures !Arrival(steps[i]) && StepAt(run, steps, i) {
        assert i > 0 ==> StepAt(rest, restSteps, i - 1);
      }
    } else {
      run, steps := [s], [];
    }
  }

  /** A state of a run in which no step but a new arrival is possible has nothing pending. */
  lemma StuckMeansFinished(run: seq<State>, steps: seq<Step>, i: nat, g: nat)
    requires IsRun(run, steps) && i < |run|
    requires forall step :: Enabled(run[i], step) ==> Arrival(step)
    ensures !Pending(run[i], g)
  {
    RunKeepsInv(run, steps, i);
    if Pending(run[i], g) {
      var oldest := OldestExists(run[i], g);
      OldestCanMove(run[i], oldest);
    }
  }
}
