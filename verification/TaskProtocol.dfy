/** Every interleaving of attaching, killing, detaching and shutting down: the locks of
    query/task_manager.go and query/executor.go as a transition system. */
module TaskProtocol {
  datatype Status = Running | Killed

  /** closes counts how often the closing channel has been closed. */
  datatype Task = Task(status: Status, closes: nat)

  type Thread = nat

  /** What the holder of the manager's lock is in the middle of, if it is held between steps. */
  datatype Lock = Free | Detaching(qid: nat) | Closing(rest: set<nat>)

  /** tasks holds every task ever attached; lookups holds, for a thread between the two halves of
      KillQuery, the task that it found. */
  datatype State = State(
    max: int, tasks: map<nat, Task>, attached: set<nat>, nextID: nat, shutdown: bool, lock: Lock,
    lookups: map<Thread, nat>)

  datatype Step =
    | Attach
    | Lookup(thread: Thread, qid: nat)
    | Kill(thread: Thread)
    | DetachBegin(qid: nat)
    | DetachEnd
    | CloseBegin
    | CloseOne(qid: nat)
    | CloseEnd

  ghost predicate Init(s: State) {
    s.tasks == map[] && s.attached == {} && s.nextID == 1 && !s.shutdown && s.lock == Free && s.lookups == map[]
  }

  /** close and kill of a task, each under the task's own lock. */
  function Closed(t: Task): (r: Task) {
    if t.status != Killed then Task(Killed, t.closes + 1) else t
  }

  predicate CanAttach(s: State) {
    !s.shutdown && !(s.max > 0 && |s.attached| >= s.max)
  }

  /** A new running task under the next id, unless the query is refused. */
  function AfterAttach(s: State): (r: State) {
    if !CanAttach(s) then s
    else s.(tasks := s.tasks[s.nextID := Task(Running, 0)], attached := s.attached + {s.nextID}, nextID := s.nextID + 1)
  }

  ghost predicate Next(s: State, step: Step, s': State) {
    match step
    case Attach =>
      && s.lock == Free
      && s' == AfterAttach(s)
    case Lookup(th, qid) =>
      && s.lock == Free && th !in s.lookups
      && s' == if qid in s.attached then s.(lookups := s.lookups[th := qid]) else s
    case Kill(th) =>
      && th in s.lookups && s.lookups[th] in s.tasks
      && s' == s.(tasks := s.tasks[s.lookups[th] := Closed(s.tasks[s.lookups[th]])], lookups := s.lookups - {th})
    case DetachBegin(qid) =>
      && s.lock == Free
      && s' == if qid in s.attached && qid in s.tasks
               then s.(tasks := s.tasks[qid := Closed(s.tasks[qid])], lock := Detaching(qid)) else s
    case DetachEnd =>
      && s.lock.Detaching?
      && s' == s.(attached := s.attached - {s.lock.qid}, lock := Free)
    case CloseBegin =>
      && s.lock == Free
      && s' == s.(shutdown := true, lock := Closing(s.attached))
    case CloseOne(qid) =>
      && s.lock.Closing? && qid in s.lock.rest && qid in s.tasks
      && s' == s.(tasks := s.tasks[qid := Closed(s.tasks[qid])], lock := Closing(s.lock.rest - {qid}))
    case CloseEnd =>
      && s.lock == Closing({})
      && s' == s.(attached := {}, lock := Free)
  }

  // ---------- the invariant ----------

  ghost predicate IdsBelow(s: State) {
    && (forall id :: id in s.tasks <==> 1 <= id < s.nextID)
    && s.attached <= s.tasks.Keys
    && (forall th :: th in s.lookups ==> s.lookups[th] in s.tasks)
  }

  /** A channel is closed once if its task is killed and not at all otherwise. */
  predicate ClosedOnce(s: State) {
    forall id :: id in s.tasks ==> s.tasks[id].closes == if s.tasks[id].status == Killed then 1 else 0
  }

  /** The tasks that may still run: attached, and not yet reached by a shutdown. */
  function Alive(s: State): (ids: set<nat>) {
    match s.lock
    case Closing(rest) => rest
    case Detaching(qid) => s.attached - {qid}
    case Free => s.attached
  }

  predicate OthersKilled(s: State) {
    && forall id :: id in s.tasks && id !in Alive(s) ==> s.tasks[id].status == Killed
  }

  predicate LockFits(s: State) {
    && (s.lock.Closing? ==> s.shutdown && s.lock.rest <= s.attached)
    && (s.lock.Detaching? ==> s.lock.qid in s.attached)
    && (s.shutdown && !s.lock.Closing? ==> s.attached == {})
  }

  predicate WithinLimit(s: State) {
    s.max > 0 ==> |s.attached| <= s.max
  }

  ghost predicate Inv(s: State) {
    s.nextID >= 1 && IdsBelow(s) && ClosedOnce(s) && OthersKilled(s) && LockFits(s) && WithinLimit(s)
  }

  lemma StepKeepsInv(s: State, step: Step, s': State)
    requires Inv(s) && Next(s, step, s')
    ensures Inv(s')
  {
    StepKeepsTasks(s, step, s');
    StepKeepsLock(s, step, s');
    StepKeepsLimit(s, step, s');
  }

  lemma StepKeepsTasks(s: State, step: Step, s': State)
    requires Inv(s) && Next(s, step, s')
    ensures s'.nextID >= 1 && IdsBelow(s') && ClosedOnce(s')
  {
    hide WithinLimit, OthersKilled, LockFits, CanAttach;
  }

  lemma StepKeepsLock(s: State, step: Step, s': State)
    requires Inv(s) && Next(s, step, s')
    ensures OthersKilled(s') && LockFits(s')
  {
    hide WithinLimit, ClosedOnce;
  }

  lemma StepKeepsLimit(s: State, step: Step, s': State)
    requires Inv(s) && Next(s, step, s')
    ensures WithinLimit(s')
  {
    hide OthersKilled, ClosedOnce;
    if step.DetachEnd? { assert |s.attached - {s.lock.qid}| <= |s.attached|; }
  }

  // ---------- whole runs ----------

  ghost predicate Behaviour(run: seq<State>, steps: seq<Step>) {
    && |run| == |steps| + 1 && Init(run[0])
    && forall i :: 0 <= i < |steps| ==> StepAt(run, steps, i)
  }

  ghost predicate StepAt(run: seq<State>, steps: seq<Step>, i: nat)
    requires |run| == |steps| + 1 && i < |steps|
  {
    Next(run[i], steps[i], run[i + 1])
  }

  lemma {:induction false} RunKeepsInv(run: seq<State>, steps: seq<Step>, i: nat)
    requires Behaviour(run, steps) && i < |run|
    ensures Inv(run[i])
  {
    hide Next, Inv;
    if i == 0 {
      InitInv(run[0]);
    } else {
      RunKeepsInv(run, steps, i - 1);
      assert StepAt(run, steps, i - 1);
      StepKeepsInv(run[i - 1], steps[i - 1], run[i]);
    }
  }

  lemma InitInv(s: State)
    ensures Init(s) ==> Inv(s)
  {
  }

  /** What never goes back: ids, tasks, kills, closed channels and the shutdown. */
  predicate Later(s: State, s': State) {
    && s.nextID <= s'.nextID && s.tasks.Keys <= s'.tasks.Keys && (s.shutdown ==> s'.shutdown && s'.nextID == s.nextID)
    && forall id :: id in s.tasks ==> TaskLater(s.tasks[id], s'.tasks[id])
  }

  predicate TaskLater(t: Task, t': Task) {
    t.closes <= t'.closes && (t.status == Killed ==> t' == t)
  }

  lemma StepIsLater(s: State, step: Step, s': State)
    requires Inv(s) && Next(s, step, s')
    ensures Later(s, s')
  {
    hide WithinLimit, OthersKilled, ClosedOnce;
  }

  lemma {:induction false} RunIsLater(run: seq<State>, steps: seq<Step>, i: nat, j: nat)
    requires Behaviour(run, steps) && i <= j < |run|
    ensures Later(run[i], run[j])
    decreases j
  {
    hide Next, Inv;
    if i < j {
      RunIsLater(run, steps, i, j - 1);
      RunKeepsInv(run, steps, j - 1);
      assert StepAt(run, steps, j - 1);
      StepIsLater(run[j - 1], steps[j - 1], run[j]);
    }
  }

  /** In every state of every run: a channel is closed exactly when its task is killed, and then
      exactly once; the limit holds; a task that was detached is killed. */
  lemma RunIsSafe(run: seq<State>, steps: seq<Step>, i: nat, id: nat)
    requires Behaviour(run, steps) && i < |run| && id in run[i].tasks
    ensures run[i].tasks[id].closes == if run[i].tasks[id].status == Killed then 1 else 0
    ensures run[i].max > 0 ==> |run[i].attached| <= run[i].max
    ensures id !in run[i].attached ==> run[i].tasks[id].status == Killed
  {
    RunKeepsInv(run, steps, i);
  }

  /** Two queries attached at different times never have the same id. */
  lemma IdsAreNotReused(run: seq<State>, steps: seq<Step>, i: nat, j: nat)
    requires Behaviour(run, steps) && i < j < |steps|
    requires steps[i].Attach? && CanAttach(run[i]) && steps[j].Attach? && CanAttach(run[j])
    ensures run[i].nextID in run[i + 1].attached && run[i].nextID != run[j].nextID
    ensures run[j].nextID !in run[j].tasks
  {
    assert StepAt(run, steps, i);
    RunKeepsInv(run, steps, j);
    RunIsLater(run, steps, i + 1, j);
  }

  /** Once a shutdown has finished, every task ever attached is killed, now and in every later
      state, and no query can attach. */
  lemma ShutdownIsFinal(run: seq<State>, steps: seq<Step>, i: nat, j: nat, id: nat)
    requires Behaviour(run, steps) && i < |steps| && steps[i].CloseEnd? && i < j < |run|
    ensures run[j].shutdown && !CanAttach(run[j]) && run[j].tasks.Keys == run[i].tasks.Keys
    ensures id in run[j].tasks ==> run[j].tasks[id].status == Killed && run[j].tasks[id].closes == 1
    ensures run[j].lock == Free ==> run[j].attached == {}
  {
    hide WithinLimit;
    assert StepAt(run, steps, i);
    RunKeepsInv(run, steps, i);
    RunKeepsInv(run, steps, i + 1);
    RunKeepsInv(run, steps, j);
    RunIsLater(run, steps, i + 1, j);
  }

  /** The steps lead from s to end. */
  ghost predicate Leads(s: State, steps: seq<Step>, end: State)
    decreases |steps|
  {
    if steps == [] then s == end else exists s1 :: Next(s, steps[0], s1) && Leads(s1, steps[1..], end)
  }

  lemma LeadsBy(s: State, step: Step, s1: State, steps: seq<Step>, end: State)
    requires Next(s, step, s1) && Leads(s1, steps, end)
    ensures Leads(s, [step] + steps, end)
  {
    hide Next;
    assert ([step] + steps)[1..] == steps;
  }

  /** The tasks with some of them closed. */
  function WithClosed(tasks: map<nat, Task>, ids: set<nat>): (r: map<nat, Task>) {
    map id | id in tasks :: if id in ids then Closed(tasks[id]) else tasks[id]
  }

  lemma ClosedNone(tasks: map<nat, Task>)
    ensures WithClosed(tasks, {}) == tasks
  {
  }

  lemma ClosedOne(tasks: map<nat, Task>, ids: set<nat>, id: nat)
    requires id in tasks && id !in ids
    ensures id in WithClosed(tasks, ids) && WithClosed(tasks, ids)[id] == tasks[id]
    ensures WithClosed(tasks, ids)[id := Closed(tasks[id])] == WithClosed(tasks, ids + {id})
    ensures ids == {} ==> tasks[id := Closed(tasks[id])] == WithClosed(tasks, {id})
  {
  }

  /** From any reachable state a shutdown in progress can be completed without anyone's help, and
      then it has closed exactly the tasks that were left. */
  lemma {:induction false} ClosingCanFinish(s: State) returns (steps: seq<Step>, end: State)
    requires Inv(s) && s.lock.Closing?
    ensures Leads(s, steps, end) && |steps| == |s.lock.rest| + 1
    ensures end == s.(tasks := WithClosed(s.tasks, s.lock.rest), attached := {}, lock := Free)
    ensures forall id :: id in end.tasks ==> end.tasks[id].status == Killed
    decreases |s.lock.rest|
  {
    hide WithinLimit, CanAttach;
    if s.lock.rest == {} {
      end := s.(attached := {}, lock := Free);
      assert WithClosed(s.tasks, {}) == s.tasks;
      steps := [CloseEnd];
      assert Leads(end, [], end);
      LeadsBy(s, CloseEnd, end, [], end);
    } else {
      var qid :| qid in s.lock.rest;
      var s1 := s.(tasks := s.tasks[qid := Closed(s.tasks[qid])], lock := Closing(s.lock.rest - {qid}));
      assert Next(s, CloseOne(qid), s1);
      StepKeepsInv(s, CloseOne(qid), s1);
      var more;
      more, end := ClosingCanFinish(s1);
      steps := [CloseOne(qid)] + more;
      LeadsBy(s, CloseOne(qid), s1, more, end);
      assert WithClosed(s1.tasks, s.lock.rest - {qid}) == WithClosed(s.tasks, s.lock.rest);
    }
  }

  // ---------- whole calls ----------

  /** KillQuery, DetachQuery and Close as a whole, with nobody in between. */
  function AfterKill(s: State, qid: nat): (r: State) {
    if qid in s.attached then s.(tasks := WithClosed(s.tasks, {qid})) else s
  }

  function AfterDetach(s: State, qid: nat): (r: State) {
    if qid in s.attached then s.(tasks := WithClosed(s.tasks, {qid}), attached := s.attached - {qid}) else s
  }

  function AfterClose(s: State): (r: State) {
    s.(shutdown := true, tasks := WithClosed(s.tasks, s.attached), attached := {})
  }

  lemma AttachLeads(s: State)
    requires s.lock == Free
    ensures Leads(s, [Attach], AfterAttach(s))
  {
    var end := AfterAttach(s);
    assert Leads(end, [], end);
    LeadsBy(s, Attach, end, [], end);
  }

  lemma KillLeads(s: State, th: Thread, qid: nat)
    requires Inv(s) && s.lock == Free && th !in s.lookups
    ensures Leads(s, [Lookup(th, qid)] + (if qid in s.attached then [Kill(th)] else []), AfterKill(s, qid))
  {
    hide WithinLimit, CanAttach;
    var end := AfterKill(s, qid);
    assert Leads(end, [], end);
    if qid in s.attached {
      var s1 := s.(lookups := s.lookups[th := qid]);
      assert s.tasks[qid := Closed(s.tasks[qid])] == WithClosed(s.tasks, {qid}) && s1.lookups - {th} == s.lookups;
      LeadsBy(s1, Kill(th), end, [], end);
      LeadsBy(s, Lookup(th, qid), s1, [Kill(th)], end);
    } else {
      LeadsBy(s, Lookup(th, qid), s, [], end);
    }
  }

  lemma DetachLeads(s: State, qid: nat)
    requires Inv(s) && s.lock == Free
    ensures Leads(s, [DetachBegin(qid)] + (if qid in s.attached then [DetachEnd] else []), AfterDetach(s, qid))
  {
    hide WithinLimit, CanAttach;
    var end := AfterDetach(s, qid);
    assert Leads(end, [], end);
    if qid in s.attached {
      var s1 := s.(tasks := s.tasks[qid := Closed(s.tasks[qid])], lock := Detaching(qid));
      assert s1.tasks == WithClosed(s.tasks, {qid});
      LeadsBy(s1, DetachEnd, end, [], end);
      LeadsBy(s, DetachBegin(qid), s1, [DetachEnd], end);
    } else {
      LeadsBy(s, DetachBegin(qid), s, [], end);
    }
  }

  lemma CloseLeads(s: State) returns (steps: seq<Step>)
    requires Inv(s) && s.lock == Free
    ensures Leads(s, steps, AfterClose(s))
  {
    hide WithinLimit, CanAttach;
    var s1 := s.(shutdown := true, lock := Closing(s.attached));
    assert Next(s, CloseBegin, s1);
    StepKeepsInv(s, CloseBegin, s1);
    var more, end := ClosingCanFinish(s1);
    LeadsBy(s, CloseBegin, s1, more, end);
    steps := [CloseBegin] + more;
  }

  /** A whole call keeps the invariant, because each of its steps does. */
  lemma {:induction false} LeadsKeepsInv(s: State, steps: seq<Step>, end: State)
    requires Inv(s) && Leads(s, steps, end)
    ensures Inv(end)
    decreases |steps|
  {
    hide Inv, Next;
    if steps != [] {
      var s1 :| Next(s, steps[0], s1) && Leads(s1, steps[1..], end);
      StepKeepsInv(s, steps[0], s1);
      LeadsKeepsInv(s1, steps[1..], end);
    }
  }

  lemma CallsKeepInv(s: State, qid: nat)
    requires Inv(s) && s.lock == Free && s.lookups == map[]
    ensures Inv(AfterAttach(s)) && Inv(AfterKill(s, qid)) && Inv(AfterDetach(s, qid)) && Inv(AfterClose(s))
  {
    hide Inv, Next, AfterAttach, AfterKill, AfterDetach, AfterClose, Leads;
    AttachLeads(s);
    LeadsKeepsInv(s, [Attach], AfterAttach(s));
    KillLeads(s, 0, qid);
    LeadsKeepsInv(s, [Lookup(0, qid)] + (if qid in s.attached then [Kill(0)] else []), AfterKill(s, qid));
    DetachLeads(s, qid);
    LeadsKeepsInv(s, [DetachBegin(qid)] + (if qid in s.attached then [DetachEnd] else []), AfterDetach(s, qid));
    var steps := CloseLeads(s);
    LeadsKeepsInv(s, steps, AfterClose(s));
  }
}
