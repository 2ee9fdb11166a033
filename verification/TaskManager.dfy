/** Running queries: Task of query/executor.go and TaskManager of query/task_manager.go. */
module TaskManagers {
  import opened Optional
  import P = TaskProtocol

  type Status = P.Status

  datatype Error = Interrupted | Timeout | Shutdown | Other

  class Task {
    ghost const id: nat
    var status: Status
    var err: Option<Error>
    /** Whether the closing channel has been closed; closing it again would panic. */
    var closed: bool

    constructor (ghost id: nat)
      ensures status == P.Running && !closed && err == None && this.id == id
    {
      this.id := id;
      status, closed, err := P.Running, false, None;
    }

    predicate Consistent()
      reads this
    {
      closed <==> status == P.Killed
    }

    /** The task in the protocol. */
    ghost function Abs(): (t: P.Task)
      reads this
    {
      P.Task(status, if closed then 1 else 0)
    }

    method CloseChannel()
      requires !closed
      modifies this`closed
      ensures closed
    {
      closed := true;
    }

    method SetError(e: Error)
      modifies this`err
      ensures err == Some(e)
    {
      err := Some(e);
    }

    /** Closes the channel unless the task was killed before. */
    method Close()
      requires Consistent()
      modifies this`status, this`closed
      ensures Consistent() && status == P.Killed && Abs() == P.Closed(old(Abs()))
    {
      if status != P.Killed {
        status := P.Killed;
        CloseChannel();
      }
    }

    /** The same, but a second kill is an error. */
    method Kill() returns (killed: bool)
      requires Consistent()
      modifies this`status, this`closed
      ensures Consistent() && status == P.Killed && Abs() == P.Closed(old(Abs()))
      ensures killed <==> old(status) == P.Running
    {
      if status == P.Killed { return false; }
      status := P.Killed;
      CloseChannel();
      killed := true;
    }
  }

  datatype AttachResult = Attached(id: nat, task: Task) | EngineShutdown | TooManyQueries

  class TaskManager {
    const maxConcurrentQueries: int
    var queries: map<nat, Task>
    var nextID: nat
    var shutdown: bool
    /** Every task ever attached. */
    ghost var all: map<nat, Task>

    /** The attached tasks are among all tasks, each under its own id. */
    ghost predicate Linked()
      reads this
    {
      && (forall id :: id in queries ==> id in all && queries[id] == all[id])
      && (forall id :: id in all ==> all[id].id == id)
    }

    /** The tasks in the protocol. */
    ghost function Tasks(): (tasks: map<nat, P.Task>)
      reads this, all.Values
    {
      map id | id in all :: all[id].Abs()
    }

    /** The manager as a state of the protocol in which no call is in progress. */
    ghost function Abs(): (s: P.State)
      reads this, all.Values
    {
      P.State(maxConcurrentQueries, Tasks(), queries.Keys, nextID, shutdown, P.Free, map[])
    }

    ghost predicate Valid()
      reads this, all.Values
    {
      Linked() && P.Inv(Abs())
    }

    lemma QueriesAreTasks()
      requires Linked()
      ensures queries.Keys <= Tasks().Keys
    {
    }

    lemma QueryIsConsistent(qid: nat)
      requires Valid()
      ensures qid in queries ==> queries[qid].Consistent() && qid in Tasks()
    {
      if qid in queries { assert qid in Tasks() && Tasks()[qid] == queries[qid].Abs(); }
    }

    constructor (max: int)
      ensures Valid() && P.Init(Abs()) && maxConcurrentQueries == max
    {
      maxConcurrentQueries := max;
      queries, nextID, shutdown, all := map[], 1, false, map[];
      new;
      P.InitInv(Abs());
    }

    /** A new running task under an id that was never given out, unless the manager was shut
        down or the limit is reached. */
    method AttachQuery() returns (r: AttachResult)
      requires Valid()
      modifies this
      ensures Abs() == P.AfterAttach(old(Abs()))
      ensures Valid()
      ensures r.EngineShutdown? <==> old(shutdown)
      ensures r.TooManyQueries? <==> !old(shutdown) && 0 < maxConcurrentQueries <= |old(queries)|
      ensures r.Attached? ==> fresh(r.task) && r.task.status == P.Running && r.id == old(nextID) && r.id !in old(all)
      ensures r.Attached? ==> queries == old(queries)[r.id := r.task] && all == old(all)[r.id := r.task]
      ensures !r.Attached? ==> queries == old(queries) && all == old(all)
    {
      hide P.AfterAttach, P.Inv, Tasks;
      assert |queries.Keys| == |queries|;
      AttachDecides(Abs(), |queries|);
      P.CallsKeepInv(Abs(), 0);
      if shutdown { return EngineShutdown; }
      if maxConcurrentQueries > 0 && |queries| >= maxConcurrentQueries { return TooManyQueries; }
      FreshId(Abs());
      var qid, query := AddTask();
      r := Attached(qid, query);
      assert queries.Keys == old(queries.Keys) + {qid};
    }

    method AddTask() returns (qid: nat, query: Task)
      requires Linked() && nextID !in Tasks()
      modifies this
      ensures Linked() && Tasks() == old(Tasks())[qid := P.Task(P.Running, 0)] && nextID == old(nextID) + 1
      ensures qid == old(nextID) && fresh(query) && query.status == P.Running && qid !in old(all)
      ensures queries == old(queries)[qid := query] && all == old(all)[qid := query] && shutdown == old(shutdown)
    {
      qid := nextID;
      query := new Task(qid);
      queries := queries[qid := query];
      all := all[qid := query];
      nextID := nextID + 1;
    }

    /** The task is killed whoever got there first; the error says whether it had been. */
    method KillQuery(qid: nat) returns (ok: bool)
      requires Valid()
      modifies if qid in queries then {queries[qid]} else {}
      ensures Abs() == P.AfterKill(old(Abs()), qid)
      ensures Valid()
      ensures ok <==> qid in queries && old(queries[qid].status) == P.Running
    {
      hide P.Inv, P.Closed;
      P.CallsKeepInv(Abs(), qid);
      if qid !in queries { return false; }
      QueryIsConsistent(qid);
      ghost var was := Tasks();
      ok := queries[qid].Kill();
      assert Tasks() == was[qid := P.Closed(was[qid])];
      P.ClosedOne(was, {}, qid);
    }

    /** The task is removed and killed; its id is not given out again. */
    method DetachQuery(qid: nat) returns (ok: bool)
      requires Valid()
      modifies this, if qid in queries then {queries[qid]} else {}
      ensures Abs() == P.AfterDetach(old(Abs()), qid)
      ensures Valid()
      ensures ok <==> qid in old(queries)
      ensures queries == old(queries) - {qid} && all == old(all)
    {
      hide P.Inv, P.Closed, P.WithClosed, Tasks, Linked;
      P.CallsKeepInv(Abs(), qid);
      if qid !in queries {
        assert queries == queries - {qid};
        return false;
      }
      QueryIsConsistent(qid);
      P.ClosedOne(Tasks(), {}, qid);
      RemoveTask(qid);
      ok := true;
    }

    method RemoveTask(qid: nat)
      requires Linked() && qid in queries && queries[qid].Consistent()
      modifies this`queries, queries[qid]
      ensures Linked() && Tasks() == old(Tasks())[qid := P.Closed(old(Tasks())[qid])]
      ensures queries == old(queries) - {qid} && queries.Keys == old(queries.Keys) - {qid}
    {
      hide P.Closed;
      CloseTask(qid, None);
      queries := queries - {qid};
    }

    /** Closes an attached task, with an error if there is one. */
    method CloseTask(qid: nat, err: Option<Error>)
      requires Linked() && qid in queries && queries[qid].Consistent()
      modifies queries[qid]
      ensures Linked() && Tasks() == old(Tasks())[qid := P.Closed(old(Tasks())[qid])]
      ensures err.Some? ==> queries[qid].err == err
      ensures forall id :: id in queries && id != qid ==> unchanged(queries[id])
    {
      if err.Some? { queries[qid].SetError(err.value); }
      queries[qid].Close();
    }

    /** Every task is told about the shutdown and killed, and none is left. */
    method Close()
      requires Valid()
      modifies this, queries.Values
      ensures Abs() == P.AfterClose(old(Abs())) && queries == map[]
      ensures Valid()
      ensures all == old(all) && forall id :: id in old(queries) ==> old(queries)[id].err == Some(Shutdown)
    {
      hide P.Inv, P.Closed, P.WithClosed, Tasks, Linked;
      P.CallsKeepInv(Abs(), 0);
      forall id | id in queries ensures queries[id].Consistent() { QueryIsConsistent(id); }
      Update(true, queries);
      StopTasks();
      Update(true, map[]);
    }

    method Update(shutdown: bool, queries: map<nat, Task>)
      requires Linked() && forall id :: id in queries ==> id in this.queries && queries[id] == this.queries[id]
      modifies this`queries, this`shutdown
      ensures Linked() && Tasks() == old(Tasks()) && this.shutdown == shutdown && this.queries == queries
    {
      this.shutdown, this.queries := shutdown, queries;
    }

    /** The loop of Close. */
    method StopTasks()
      requires Linked() && forall id :: id in queries ==> queries[id].Consistent()
      modifies queries.Values
      ensures Linked() && Tasks() == P.WithClosed(old(Tasks()), queries.Keys)
      ensures forall id :: id in queries ==> queries[id].err == Some(Shutdown)
    {
      hide P.Closed, P.WithClosed, Tasks, Linked;
      ghost var was := Tasks();
      QueriesAreTasks();
      P.ClosedNone(was);
      var rest := queries.Keys;
      assert queries.Keys - rest == {};
      while rest != {}
        invariant rest <= queries.Keys && Linked() && Tasks() == P.WithClosed(was, queries.Keys - rest)
        invariant queries.Keys <= was.Keys
        invariant forall id :: id in rest ==> queries[id].Consistent()
        invariant forall id :: id in queries && id !in rest ==> queries[id].err == Some(Shutdown)
        decreases |rest|
      {
        var id :| id in rest;
        P.ClosedOne(was, queries.Keys - rest, id);
        assert (queries.Keys - rest) + {id} == queries.Keys - (rest - {id});
        CloseTask(id, Some(Shutdown));
        rest := rest - {id};
      }
      assert queries.Keys - rest == queries.Keys;
    }
  }

  lemma FreshId(s: P.State)
    requires P.Inv(s)
    ensures s.nextID !in s.tasks
  {
  }

  lemma AttachDecides(s: P.State, n: int)
    ensures n == |s.attached| && (s.shutdown || 0 < s.max <= n) ==> P.AfterAttach(s) == s
    ensures n == |s.attached| && !s.shutdown && !(0 < s.max <= n) ==>
              P.AfterAttach(s) == s.(tasks := s.tasks[s.nextID := P.Task(P.Running, 0)],
                                     attached := s.attached + {s.nextID}, nextID := s.nextID + 1)
  {
  }
}
