/** Which operations on one shard may run at the same time as a delete. */
module EpochOverlaps {
  import opened Optional
  import opened Guards
  import opened EpochTracking
  import opened EpochProtocol

  /** A delete with this guard and a write of these points are both at work. */
  ghost predicate WriteMeetsDelete(s: State, guard: Guard, points: seq<Point>) {
    exists w, d :: w in s.writes && d in s.deletes && s.writes[w] == Write(points, Writing)
                   && s.deletes[d] == Delete(guard, Deleting)
  }

  /** Two deletes with these guards are both at work. */
  ghost predicate DeletesMeet(s: State, a: Guard, b: Guard) {
    exists c, d :: c in s.deletes && d in s.deletes && c < d && s.deletes[c] == Delete(a, Deleting)
                   && s.deletes[d] == Delete(b, Deleting)
  }

  /** The last state of a run from the start. */
  ghost predicate Reached(s: State) {
    exists run, steps :: IsRun(run, steps) && run[|steps|] == s
  }

  lemma StartIsReached()
    ensures Reached(INIT)
  {
    assert IsRun([INIT], []);
  }

  lemma StepIsReached(s: State, step: Step)
    requires Reached(s) && Enabled(s, step)
    ensures Reached(Apply(s, step))
  {
    hide Enabled, Apply;
    var run, steps :| IsRun(run, steps) && run[|steps|] == s;
    var run', steps' := run + [Apply(s, step)], steps + [step];
    forall i | 0 <= i < |steps'| ensures StepAt(run', steps', i) {
      if i < |steps| { assert StepAt(run, steps, i); }
    }
    assert IsRun(run', steps') && run'[|steps'|] == Apply(s, step);
  }

  /** The first operation is a delete, which has nothing to wait for. */
  lemma FirstDelete(guard: Guard) returns (s: State)
    ensures Reached(s) && s.deletes == map[1 := Delete(guard, Deleting)] && s.writes == map[] && s.mutex.Free?
    ensures s.tracker.epoch == 1 && s.tracker.writes == 0 && s.tracker.deletes.Keys == {1}
  {
    hide Reached;
    StartIsReached();
    s := Apply(INIT, WaitDelete(guard));
    StepIsReached(INIT, WaitDelete(guard));
    StepIsReached(s, WaitReturns(1));
    s := Apply(s, WaitReturns(1));
  }

  /** A delete waits for no other delete: whatever their guards, two can be at work together. */
  lemma DeletesCanMeet(a: Guard, b: Guard) returns (s: State)
    ensures Reached(s) && DeletesMeet(s, a, b)
  {
    hide Reached;
    s := FirstDelete(a);
    StepIsReached(s, WaitDelete(b));
    s := Apply(s, WaitDelete(b));
    StepIsReached(s, WaitReturns(2));
    s := Apply(s, WaitReturns(2));
    assert s.deletes[1] == Delete(a, Deleting) && s.deletes[2] == Delete(b, Deleting);
  }

  lemma WriteCanMeet(guard: Guard, points: seq<Point>) returns (s: State)
    requires !MatchesAny(Some(guard), points)
    ensures Reached(s) && WriteMeetsDelete(s, guard, points)
  {
    hide Reached, MatchesAny;
    s := FirstDelete(guard);
    StepIsReached(s, StartWrite(points, [1]));
    s := Apply(s, StartWrite(points, [1]));
    StepIsReached(s, PassGuard(2));
    s := Apply(s, PassGuard(2));
    StepIsReached(s, BeginWrite(2));
    s := Apply(s, BeginWrite(2));
    assert s.writes[2] == Write(points, Writing) && s.deletes[1] == Delete(guard, Deleting);
  }

  /** A delete and a write can be at work together if and only if the guard does not match the
      points: exactly the matching writes are excluded. */
  lemma WriteCanMeetIff(guard: Guard, points: seq<Point>)
    ensures (exists s :: Reached(s) && WriteMeetsDelete(s, guard, points)) <==> !MatchesAny(Some(guard), points)
  {
    hide MatchesAny;
    if s :| Reached(s) && WriteMeetsDelete(s, guard, points) {
      var run, steps :| IsRun(run, steps) && run[|steps|] == s;
      var w, d :| w in s.writes && d in s.deletes && s.writes[w] == Write(points, Writing)
                  && s.deletes[d] == Delete(guard, Deleting);
      MutualExclusion(run, steps, |steps|, w, d);
    }
    if !MatchesAny(Some(guard), points) {
      var s := WriteCanMeet(guard, points);
    }
  }
}
