/** The write/delete epoch tracker (tsdb/epoch_tracker.go): its state as a value, and the
    class whose methods update that state in place under the tracker's mutex. */
module EpochTracking {
  import opened Guards

  datatype DeleteState = DeleteState(guard: Guard, pending: int)

  datatype Tracker = Tracker(epoch: nat, largest: nat, writes: int, deletes: map<nat, DeleteState>)

  const EMPTY_TRACKER := Tracker(0, 0, 0, map[])

  /** The deletes an ending write must notify. */
  function ToNotify(t: Tracker, gen: nat): (ds: set<nat>) {
    if gen <= t.largest then (set d | d in t.deletes && gen <= d) else {}
  }

  /** Every pending delete in `ds` has seen one more write finish. */
  function Notified(t: Tracker, ds: set<nat>): (r: Tracker) {
    t.(deletes := map d | d in t.deletes ::
         if d in ds then t.deletes[d].(pending := t.deletes[d].pending - 1) else t.deletes[d])
  }

  function AfterStartWrite(t: Tracker): (r: Tracker) {
    t.(epoch := t.epoch + 1, writes := t.writes + 1)
  }

  function AfterWaitDelete(t: Tracker, guard: Guard): (r: Tracker) {
    var gen := t.epoch + 1;
    t.(epoch := gen, largest := gen, deletes := t.deletes[gen := DeleteState(guard, t.writes)])
  }

  function AfterRemove(t: Tracker, gen: nat): (r: Tracker) {
    t.(deletes := t.deletes - {gen})
  }

  function AfterEndWrite(t: Tracker, gen: nat): (r: Tracker) {
    Notified(t, ToNotify(t, gen)).(writes := t.writes - 1)
  }

  /** Notifying the deletes one at a time, in whatever order the map is walked, amounts to
      notifying all of them at once. */
  lemma NotifyOneMore(t: Tracker, ds: set<nat>, d: nat)
    requires d in t.deletes && d !in ds
    ensures Notified(Notified(t, ds), {d}) == Notified(t, ds + {d})
  {
    var a, b := Notified(Notified(t, ds), {d}), Notified(t, ds + {d});
    assert a.deletes.Keys == b.deletes.Keys;
    forall x | x in a.deletes ensures a.deletes[x] == b.deletes[x] {
      assert x in t.deletes && x in Notified(t, ds).deletes;
    }
  }

  /** The state a delete and the tracker share; both refer to the same cell. */
  class DeleteCell {
    const guard: Guard
    var pending: int

    constructor (guard: Guard, pending: int)
      ensures this.guard == guard && this.pending == pending
    {
      this.guard := guard;
      this.pending := pending;
    }

    method Done() returns (broadcast: bool)
      modifies this`pending
      ensures pending == old(pending) - 1
      ensures broadcast == (pending == 0)
    {
      pending := pending - 1;
      broadcast := pending == 0;
    }
  }

  /** A walk over a Go map visits every key once, in no particular order. */
  method Enumerate(keys: set<nat>) returns (order: seq<nat>)
    ensures multiset(order) == multiset(keys)
  {
    order := [];
    var todo := keys;
    while todo != {}
      invariant todo <= keys && multiset(order) + multiset(todo) == multiset(keys)
    {
      var d :| d in todo;
      order := order + [d];
      todo := todo - {d};
    }
  }

  class EpochTracker {
    var epoch: nat
    var largest: nat
    var writes: int
    var deletes: map<nat, DeleteCell>

    /** No two generations share a cell. */
    ghost predicate Valid()
      reads this
    {
      forall a, b :: a in deletes && b in deletes && a != b ==> deletes[a] != deletes[b]
    }

    ghost function Abs(): (t: Tracker)
      reads this, deletes.Values
    {
      Tracker(epoch, largest, writes, map d | d in deletes :: DeleteState(deletes[d].guard, deletes[d].pending))
    }

    constructor ()
      ensures Valid() && Abs() == EMPTY_TRACKER
    {
      epoch, largest, writes, deletes := 0, 0, 0, map[];
    }

    method Next() returns (gen: nat)
      modifies this`epoch
      ensures epoch == old(epoch) + 1 && gen == epoch
    {
      epoch := epoch + 1;
      gen := epoch;
    }

    /** Returns the generations of the pending deletes in the order the map was walked; the
        guard of each is `deletes[d].guard`. */
    method StartWrite() returns (guards: seq<nat>, gen: nat)
      requires Valid()
      modifies this`epoch, this`writes
      ensures Valid()
      ensures gen == old(epoch) + 1
      ensures Abs() == AfterStartWrite(old(Abs()))
      ensures multiset(guards) == multiset(deletes.Keys)
    {
      gen := Next();
      writes := writes + 1;
      guards := Enumerate(deletes.Keys);
    }

    method EndWrite(gen: nat)
      requires Valid()
      modifies this`writes, deletes.Values`pending
      ensures Valid()
      ensures Abs() == AfterEndWrite(old(Abs()), gen)
    {
      if gen <= largest {
        var todo := deletes.Keys;
        while todo != {}
          invariant todo <= deletes.Keys && writes == old(writes)
          invariant forall d :: d in deletes ==>
            deletes[d].pending == old(deletes[d].pending) - (if gen <= d && d !in todo then 1 else 0)
        {
          var d :| d in todo;
          todo := todo - {d};
          if gen <= d {
            var _ := deletes[d].Done();
          }
        }
      }
      writes := writes - 1;
      assert Abs().deletes == AfterEndWrite(old(Abs()), gen).deletes;
    }

    method WaitDelete(guard: Guard) returns (gen: nat, cell: DeleteCell)
      requires Valid()
      modifies this`epoch, this`largest, this`deletes
      ensures Valid() && fresh(cell) && gen == old(epoch) + 1
      ensures deletes == old(deletes)[gen := cell]
      ensures Abs() == AfterWaitDelete(old(Abs()), guard)
    {
      cell := new DeleteCell(guard, writes);
      gen := Next();
      largest := gen;
      deletes := deletes[gen := cell];
      assert Abs().deletes == old(Abs()).deletes[gen := DeleteState(guard, old(writes))];
    }

    /** The first half of epochWaiter.Done: the part under the tracker's mutex. */
    method Remove(gen: nat)
      requires Valid()
      modifies this`deletes
      ensures Valid()
      ensures Abs() == AfterRemove(old(Abs()), gen)
    {
      deletes := deletes - {gen};
      assert Abs().deletes == old(Abs()).deletes - {gen};
    }
  }
}
