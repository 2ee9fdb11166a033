/** Aggregates that are computed per shard and merged: the reduce functions of
    query/call_iterator.go, IntegerFuncReducer of query/functions.gen.go and Iterators.Merge of
    query/iterator.go. */
module Aggregates {
  import opened Optional
  import opened Int64
  import opened Sequences

  const UINT32: int := 0x1_0000_0000
  type uint32 = x: int | 0 <= x < UINT32

  /** ZeroTime: no point is stored at this time. */
  const ZERO_TIME: int64 := MIN

  /** aggregated is the number of points that this one stands for, zero if it is a raw point. */
  datatype Pt = Pt(time: int64, value: int64, aggregated: uint32)

  /** Which of two points a selector keeps. Booleans are the values 0 and 1; on them only first
      breaks ties differently. */
  datatype Selector = Min | Max | First | BooleanFirst | Last

  datatype Call = Count | Sum | Select(sel: Selector)

  // ---------- the reduce functions ----------

  predicate Replaces(sel: Selector, curr: Pt, prev: Pt) {
    match sel
    case Min => curr.value < prev.value || (curr.value == prev.value && curr.time < prev.time)
    case Max => curr.value > prev.value || (curr.value == prev.value && curr.time < prev.time)
    case First => curr.time < prev.time || (curr.time == prev.time && curr.value > prev.value)
    case BooleanFirst => curr.time < prev.time || (curr.time == prev.time && curr.value < prev.value)
    case Last => curr.time > prev.time || (curr.time == prev.time && curr.value > prev.value)
  }

  function Reduce(call: Call, prev: Option<Pt>, curr: Pt): (tv: (int64, int64)) {
    match call
    case Count => if prev.None? then (ZERO_TIME, 1) else (ZERO_TIME, Wrap(prev.value.value + 1))
    case Sum => if prev.None? then (ZERO_TIME, curr.value) else (prev.value.time, Wrap(prev.value.value + curr.value))
    case Select(sel) =>
      if prev.None? || Replaces(sel, curr, prev.value) then (curr.time, curr.value)
      else (prev.value.time, prev.value.value)
  }

  /** How many points p stands for. */
  function Weight(p: Pt): (w: int)
    ensures 1 <= w < UINT32
  {
    if p.aggregated > 1 then p.aggregated else 1
  }

  /** AggregateInteger */
  function Next(call: Call, prev: Option<Pt>, p: Pt): (r: Pt) {
    var (t, v) := Reduce(call, prev, p);
    Pt(t, v, ((if prev.None? then 0 else prev.value.aggregated) + Weight(p)) % UINT32)
  }

  function Initial(call: Call): (prev: Option<Pt>) {
    if call.Select? then None else Some(Pt(ZERO_TIME, 0, 0))
  }

  function Fold(call: Call, pts: seq<Pt>): (r: Option<Pt>)
    ensures pts != [] ==> r.Some?
  {
    if pts == [] then Initial(call) else Some(Next(call, Fold(call, pts[..|pts| - 1]), pts[|pts| - 1]))
  }

  class IntegerFuncReducer {
    const call: Call
    var prev: Option<Pt>

    constructor (call: Call)
      ensures this.call == call && prev == Initial(call)
    {
      this.call, this.prev := call, Initial(call);
    }

    method AggregateInteger(p: Pt)
      modifies this
      ensures prev == Some(Next(call, old(prev), p))
    {
      var tv := Reduce(call, prev, p);
      var count := if prev.None? then 0 else prev.value.aggregated;
      if p.aggregated > 1 {
        count := (count + p.aggregated) % UINT32;
      } else {
        count := (count + 1) % UINT32;
      }
      prev := Some(Pt(tv.0, tv.1, count));
    }

    method Emit() returns (out: seq<Pt>)
      requires prev.Some?
      ensures out == [prev.value]
    {
      out := [prev.value];
    }
  }

  /** A reducer that gives no time gets the start of the window. */
  function Stamped(start: int64, p: Pt): (r: Pt) {
    if p.time == ZERO_TIME then p.(time := start) else p
  }

  function Reduced(call: Call, start: int64, pts: seq<Pt>): (r: Pt)
    requires pts != []
  {
    Stamped(start, Fold(call, pts).value)
  }

  /** The points of one series and one window through one reducer. */
  method ReduceWindow(call: Call, start: int64, pts: seq<Pt>) returns (r: Pt)
    requires pts != []
    ensures r == Reduced(call, start, pts)
  {
    hide Next;
    var reducer := new IntegerFuncReducer(call);
    for i := 0 to |pts|
      invariant fresh(reducer) && reducer.call == call && reducer.prev == Fold(call, pts[..i])
    {
      assert pts[..i + 1][..i] == pts[..i];
      reducer.AggregateInteger(pts[i]);
    }
    assert pts[..|pts|] == pts;
    var out := reducer.Emit();
    r := Stamped(start, out[0]);
  }

  // ---------- merging the shards ----------

  predicate NoneEmpty(groups: seq<seq<Pt>>) {
    forall i :: 0 <= i < |groups| ==> groups[i] != []
  }

  function Partials(call: Call, start: int64, groups: seq<seq<Pt>>): (ps: seq<Pt>)
    requires NoneEmpty(groups)
    ensures |ps| == |groups|
  {
    if groups == [] then []
    else
      Partials(call, start, groups[..|groups| - 1]) + [Reduced(call, start, groups[|groups| - 1])]
  }

  /** Merge: partial counts are summed, everything else is reduced by the same call. */
  function MergeCall(call: Call): (c: Call) {
    if call == Count then Sum else call
  }

  function Merged(call: Call, start: int64, groups: seq<seq<Pt>>): (r: Pt)
    requires groups != [] && NoneEmpty(groups)
  {
    Reduced(MergeCall(call), start, Partials(call, start, groups))
  }

  function Flatten(groups: seq<seq<Pt>>): (pts: seq<Pt>) {
    if groups == [] then [] else Flatten(groups[..|groups| - 1]) + groups[|groups| - 1]
  }

  // ---------- totals ----------

  /** The sum of f over the points. */
  function Total(f: Pt -> int, pts: seq<Pt>): (t: int) {
    if pts == [] then 0 else Total(f, pts[..|pts| - 1]) + f(pts[|pts| - 1])
  }

  lemma {:induction false} TotalOfConcat(f: Pt -> int, a: seq<Pt>, b: seq<Pt>)
    ensures Total(f, a + b) == Total(f, a) + Total(f, b)
  {
    if b == [] {
      assert a + b == a;
    } else {
      TotalOfConcat(f, a, b[..|b| - 1]);
      assert (a + b)[..|a + b| - 1] == a + b[..|b| - 1];
    }
  }

  lemma TotalWithout(f: Pt -> int, a: seq<Pt>, k: nat)
    requires k < |a|
    ensures Total(f, a) == Total(f, a[..k] + a[k + 1..]) + f(a[k])
    ensures multiset(a[..k] + a[k + 1..]) == multiset(a) - multiset{a[k]}
  {
    hide Total;
    var front, x, back := a[..k], a[k], a[k + 1..];
    WithoutAt(a, k);
    TotalOfConcat(f, front, [x] + back);
    TotalOfConcat(f, [x], back);
    TotalOfConcat(f, front, back);
    TotalOfOne(f, x);
  }

  lemma NoTotal(f: Pt -> int)
    ensures Total(f, []) == 0
  {
  }

  lemma TotalOfOne(f: Pt -> int, x: Pt)
    ensures Total(f, [x]) == f(x)
  {
    assert [x][..0] == [];
  }

  /** Totals do not depend on the order of the points. */
  lemma {:induction false} TotalOfPermutation(f: Pt -> int, a: seq<Pt>, b: seq<Pt>)
    requires multiset(a) == multiset(b)
    ensures Total(f, a) == Total(f, b)
    decreases |a|
  {
    hide Total;
    SameLength(a, b);
    if a == [] {
      assert b == [];
    } else {
      assert a[0] in multiset(b);
      var k :| 0 <= k < |b| && b[k] == a[0];
      TotalWithout(f, a, 0);
      TotalWithout(f, b, k);
      TotalOfPermutation(f, a[..0] + a[1..], b[..k] + b[k + 1..]);
    }
  }

  // ---------- what one reduction computes ----------

  function ValueOf(): (f: Pt -> int) { (p: Pt) => p.value as int }
  function OneOf(): (f: Pt -> int) { (p: Pt) => 1 }
  function WeightOf(): (f: Pt -> int) { (p: Pt) => Weight(p) }

  /** What a count or a sum adds for a point. */
  function Addend(call: Call): (f: Pt -> int) {
    if call == Count then OneOf() else ValueOf()
  }

  /** Counts and sums: the total of all points, as far as 64 bits hold it, and no time. */
  lemma {:induction false} FoldAdds(call: Call, pts: seq<Pt>)
    requires !call.Select?
    ensures Fold(call, pts).Some?
    ensures var r := Fold(call, pts).value; r.time == ZERO_TIME && r.value == Wrap(Total(Addend(call), pts))
  {
    if pts != [] {
      FoldAdds(call, pts[..|pts| - 1]);
      var f := Addend(call);
      WrapAdds(Total(f, pts[..|pts| - 1]), f(pts[|pts| - 1]));
    }
  }

  lemma {:induction false} FoldWeighs(call: Call, pts: seq<Pt>)
    ensures var r := Fold(call, pts);
            (if r.None? then 0 else r.value.aggregated) == Total(WeightOf(), pts) % UINT32
  {
    if pts != [] {
      FoldWeighs(call, pts[..|pts| - 1]);
      ModuloAdds(Total(WeightOf(), pts[..|pts| - 1]), Weight(pts[|pts| - 1]), UINT32);
    }
  }

  predicate Alike(p: Pt, r: Pt) {
    p.time == r.time && p.value == r.value
  }

  /** r is one of the points and no point replaces it. */
  predicate Picked(sel: Selector, pts: seq<Pt>, r: Pt) {
    && (exists p :: p in pts && Alike(p, r))
    && forall p :: p in pts ==> !Replaces(sel, p, r)
  }

  lemma {:induction false} FoldPicks(sel: Selector, pts: seq<Pt>)
    requires pts != []
    ensures Picked(sel, pts, Fold(Select(sel), pts).value)
  {
    var init, p := pts[..|pts| - 1], pts[|pts| - 1];
    var r := Fold(Select(sel), pts).value;
    assert forall q :: q in pts <==> q in init || q == p;
    if init == [] {
      assert Fold(Select(sel), init) == None;
      assert Alike(p, r);
    } else {
      FoldPicks(sel, init);
      var was := Fold(Select(sel), init).value;
      if Replaces(sel, p, was) { assert Alike(p, r); }
    }
  }

  /** r comes out before p: the smallest, largest, first or last, and how ties are broken. */
  predicate Selects(sel: Selector, r: Pt, p: Pt) {
    match sel
    case Min => r.value <= p.value && (r.value == p.value ==> r.time <= p.time)
    case Max => r.value >= p.value && (r.value == p.value ==> r.time <= p.time)
    case First => r.time <= p.time && (r.time == p.time ==> r.value >= p.value)
    case BooleanFirst => r.time <= p.time && (r.time == p.time ==> r.value <= p.value)
    case Last => r.time >= p.time && (r.time == p.time ==> r.value >= p.value)
  }

  /** Reducing with a selector gives the minimum, the maximum, the first or the last point. */
  lemma FoldSelects(sel: Selector, pts: seq<Pt>)
    requires pts != []
    ensures var r := Fold(Select(sel), pts).value;
            (exists p :: p in pts && Alike(p, r)) && forall p :: p in pts ==> Selects(sel, r, p)
  {
    hide Fold;
    FoldPicks(sel, pts);
  }

  /** Only one time and value can be picked. */
  lemma PickedIsUnique(sel: Selector, a: seq<Pt>, b: seq<Pt>, r: Pt, s: Pt)
    requires forall p :: p in a <==> p in b
    requires Picked(sel, a, r) && Picked(sel, b, s)
    ensures Alike(r, s)
  {
  }

  // ---------- merging gives the same ----------

  /** Summing the partial counts or sums gives the total of all points. */
  lemma {:induction false} PartialsAdd(call: Call, start: int64, groups: seq<seq<Pt>>)
    requires !call.Select? && NoneEmpty(groups)
    ensures Wrap(Total(ValueOf(), Partials(call, start, groups))) == Wrap(Total(Addend(call), Flatten(groups)))
  {
    hide Fold, Wrap, Addend, Total;
    if groups == [] {
      NoTotal(ValueOf());
      NoTotal(Addend(call));
    } else {
      var init, g := groups[..|groups| - 1], groups[|groups| - 1];
      PartialsAdd(call, start, init);
      FoldAdds(call, g);
      TotalOfConcat(Addend(call), Flatten(init), g);
      var ps, p := Partials(call, start, init), Reduced(call, start, g);
      TotalOfConcat(ValueOf(), ps, [p]);
      TotalOfOne(ValueOf(), p);
      var a, b := Total(ValueOf(), ps), Total(Addend(call), g);
      WrapAdds(b, a);
      WrapAdds(a, b);
      WrapAdds(Total(Addend(call), Flatten(init)), b);
    }
  }

  lemma {:induction false} PartialIsReduced(call: Call, start: int64, groups: seq<seq<Pt>>, i: nat)
    requires NoneEmpty(groups) && i < |groups|
    ensures Partials(call, start, groups)[i] == Reduced(call, start, groups[i])
  {
    hide Reduced;
    if i < |groups| - 1 { PartialIsReduced(call, start, groups[..|groups| - 1], i); }
  }

  lemma {:induction false} InFlatten(groups: seq<seq<Pt>>, p: Pt)
    ensures p in Flatten(groups) <==> exists i :: 0 <= i < |groups| && p in groups[i]
  {
    if groups != [] {
      var init := groups[..|groups| - 1];
      InFlatten(init, p);
      if p in Flatten(init) {
        var i :| 0 <= i < |init| && p in init[i];
        assert p in groups[i];
      }
      if i :| 0 <= i < |groups| && p in groups[i] {
        assert i < |init| ==> p in init[i];
      }
    }
  }

  predicate Stored(pts: seq<Pt>) {
    forall p :: p in pts ==> p.time != ZERO_TIME
  }

  /** The pick among the groups' picks is the pick among all points. */
  lemma PartialsPick(sel: Selector, start: int64, groups: seq<seq<Pt>>)
    requires groups != [] && NoneEmpty(groups) && Stored(Flatten(groups))
    ensures Picked(sel, Flatten(groups), Merged(Select(sel), start, groups))
  {
    hide Fold, Flatten;
    var ps := Partials(Select(sel), start, groups);
    forall i | 0 <= i < |groups| ensures Picked(sel, groups[i], ps[i]) && ps[i].time != ZERO_TIME {
      PartialIsReduced(Select(sel), start, groups, i);
      FoldPicks(sel, groups[i]);
      var p :| p in groups[i] && Alike(p, Fold(Select(sel), groups[i]).value);
      InFlatten(groups, p);
    }
    FoldPicks(sel, ps);
    PickOfPicks(sel, groups, ps, Fold(Select(sel), ps).value);
  }

  lemma PickOfPicks(sel: Selector, groups: seq<seq<Pt>>, ps: seq<Pt>, r: Pt)
    requires |ps| == |groups| && Picked(sel, ps, r)
    requires forall i :: 0 <= i < |groups| ==> Picked(sel, groups[i], ps[i]) && ps[i].time != ZERO_TIME
    ensures r.time != ZERO_TIME && Picked(sel, Flatten(groups), r)
  {
    hide Flatten;
    var p :| p in ps && Alike(p, r);
    var i :| 0 <= i < |ps| && ps[i] == p;
    assert Picked(sel, groups[i], p);
    var q :| q in groups[i] && Alike(q, p);
    InFlatten(groups, q);
    assert Alike(q, r);
    forall x | x in Flatten(groups) ensures !Replaces(sel, x, r) {
      InFlatten(groups, x);
      var j :| 0 <= j < |groups| && x in groups[j];
      assert Picked(sel, groups[j], ps[j]) && ps[j] in ps;
    }
  }

  /** However the points are divided among shards, and in whatever order, merging the shards'
      results gives the time and the value of one reduction over all points. */
  lemma MergeIsReduction(call: Call, start: int64, groups: seq<seq<Pt>>, pts: seq<Pt>)
    requires groups != [] && NoneEmpty(groups) && pts != []
    requires multiset(pts) == multiset(Flatten(groups)) && Stored(pts)
    ensures Alike(Merged(call, start, groups), Reduced(call, start, pts))
  {
    hide Fold, Total, Flatten, Partials, Wrap, Addend;
    assert forall p :: p in pts <==> p in multiset(pts);
    assert forall p :: p in Flatten(groups) <==> p in multiset(Flatten(groups));
    if call.Select? {
      PartialsPick(call.sel, start, groups);
      FoldPicks(call.sel, pts);
      PickedIsStored(call.sel, pts, Fold(call, pts).value);
      PickedIsUnique(call.sel, Flatten(groups), pts, Merged(call, start, groups), Fold(call, pts).value);
    } else {
      PartialsAdd(call, start, groups);
      FoldAdds(call, pts);
      FoldAdds(Sum, Partials(call, start, groups));
      TotalOfPermutation(Addend(call), pts, Flatten(groups));
      AddendOfSum();
    }
  }

  lemma AddendOfSum()
    ensures Addend(Sum) == ValueOf()
  {
  }

  lemma PickedIsStored(sel: Selector, pts: seq<Pt>, r: Pt)
    ensures Picked(sel, pts, r) && Stored(pts) ==> r.time != ZERO_TIME
  {
  }

  // ---------- the number of points behind a result ----------

  /** The groups whose points together weigh a multiple of 2^32, so that 32 bits keep zero. */
  function Vanishing(groups: seq<seq<Pt>>): (n: nat) {
    if groups == [] then 0
    else Vanishing(groups[..|groups| - 1]) +
         if Total(WeightOf(), groups[|groups| - 1]) % UINT32 == 0 then 1 else 0
  }

  lemma {:induction false} PartialsWeigh(call: Call, start: int64, groups: seq<seq<Pt>>)
    requires NoneEmpty(groups)
    ensures Total(WeightOf(), Partials(call, start, groups)) % UINT32 ==
            (Total(WeightOf(), Flatten(groups)) + Vanishing(groups)) % UINT32
  {
    hide Fold, Total;
    if groups == [] {
      NoTotal(WeightOf());
    } else {
      var init, g := groups[..|groups| - 1], groups[|groups| - 1];
      var ps, p := Partials(call, start, init), Reduced(call, start, g);
      PartialsWeigh(call, start, init);
      FoldWeighs(call, g);
      TotalOfConcat(WeightOf(), Flatten(init), g);
      TotalOfConcat(WeightOf(), ps, [p]);
      TotalOfOne(WeightOf(), p);
      var w := Total(WeightOf(), g);
      var v := if w % UINT32 == 0 then 1 else 0;
      assert Weight(p) == w % UINT32 + v;
      var a, b := Total(WeightOf(), ps), Total(WeightOf(), Flatten(init)) + Vanishing(init);
      ModuloAdds(w, a + v, UINT32);
      ModuloAdds(a, w + v, UINT32);
      ModuloAdds(b, w + v, UINT32);
    }
  }

  /** The merged result stands for as many points as one reduction exactly when the number of
      shards whose count wraps to zero is a multiple of 2^32, which in practice means none. */
  lemma MergedWeightIff(call: Call, start: int64, groups: seq<seq<Pt>>, pts: seq<Pt>)
    requires groups != [] && NoneEmpty(groups) && pts != [] && multiset(pts) == multiset(Flatten(groups))
    ensures Merged(call, start, groups).aggregated == Reduced(call, start, pts).aggregated <==>
            Vanishing(groups) % UINT32 == 0
  {
    hide Fold, Total, Flatten, Partials, Vanishing;
    PartialsWeigh(call, start, groups);
    FoldWeighs(call, pts);
    FoldWeighs(MergeCall(call), Partials(call, start, groups));
    TotalOfPermutation(WeightOf(), pts, Flatten(groups));
    var w, v := Total(WeightOf(), pts), Vanishing(groups);
    ModuloAdds(v, w, UINT32);
    ModuloAdds(w, v, UINT32);
  }

  /** Two points that stand for 2^31 points each are counted as one by the shards' merge: with a
      third point the merged sum stands for 2 points and one reduction for 1. */
  lemma LostWeightIsCounted()
    ensures var half, one := Pt(1, 1, 0x8000_0000), Pt(2, 1, 0);
            && Merged(Sum, 0, [[half, half], [one]]).aggregated == 2
            && Reduced(Sum, 0, [half, half, one]).aggregated == 1
  {
    var half, one := Pt(1, 1, 0x8000_0000), Pt(2, 1, 0);
    hide Total, Merged, Reduced;
    HalfWeights(half, one);
    WeightOfTwoGroups(Sum, 0, [half, half], [one]);
    assert [half, half] + [one] == [half, half, one];
  }

  lemma WeightOfTwoGroups(call: Call, start: int64, a: seq<Pt>, b: seq<Pt>)
    requires a != [] && b != []
    ensures var w, v, u := Total(WeightOf(), a + b), Total(WeightOf(), a), Total(WeightOf(), b);
            && Reduced(call, start, a + b).aggregated == w % UINT32
            && Merged(call, start, [a, b]).aggregated ==
                 (w + (if v % UINT32 == 0 then 1 else 0) + (if u % UINT32 == 0 then 1 else 0)) % UINT32
  {
    hide Fold, Total, Flatten, Partials, Vanishing, WeightOf;
    var groups := [a, b];
    assert NoneEmpty(groups);
    TwoGroups(a, b);
    PartialsWeigh(call, start, groups);
    FoldWeighs(MergeCall(call), Partials(call, start, groups));
    FoldWeighs(call, a + b);
  }

  lemma HalfWeights(half: Pt, one: Pt)
    requires half.aggregated == 0x8000_0000 && one.aggregated == 0
    ensures Total(WeightOf(), [half, half]) == UINT32 && Total(WeightOf(), [one]) == 1
    ensures Total(WeightOf(), [half, half] + [one]) == UINT32 + 1
  {
    hide Total;
    TotalOfOne(WeightOf(), half);
    TotalOfOne(WeightOf(), one);
    TotalOfConcat(WeightOf(), [half], [half]);
    TotalOfConcat(WeightOf(), [half, half], [one]);
    assert [half] + [half] == [half, half];
  }

  lemma TwoGroups(a: seq<Pt>, b: seq<Pt>)
    ensures Flatten([a, b]) == a + b
    ensures Vanishing([a, b]) == (if Total(WeightOf(), a) % UINT32 == 0 then 1 else 0) +
                                 (if Total(WeightOf(), b) % UINT32 == 0 then 1 else 0)
  {
    hide Total;
    var none: seq<seq<Pt>> := [];
    assert [a, b][..1] == [a] && [a][..0] == none;
    assert Flatten(none) == [] && [] + a == a && Vanishing(none) == 0;
  }
}
