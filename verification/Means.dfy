/** mean() over shards: FloatMeanReducer of query/functions.go over exact numbers. */
module Means {
  import opened Optional
  import opened Int64
  import opened Sequences
  import opened Aggregates

  /** A value of None is one that is not finite: an infinity or not a number. */
  datatype Sample = Sample(value: Option<real>, aggregated: uint32)

  predicate Finite(pts: seq<Sample>) {
    forall p :: p in pts ==> p.value.Some?
  }

  function Number(p: Sample): (v: real) {
    if p.value.Some? then p.value.value else 0.0
  }

  /** Partial means count as often as the points behind them. */
  function Times(p: Sample): (w: nat)
    ensures w >= 1
  {
    if p.aggregated >= 2 then p.aggregated else 1
  }

  function Scaled(v: real, n: nat): (r: real) {
    v * n as real
  }

  /** What p adds to the sum. */
  function Share(p: Sample): (s: real) {
    Scaled(Number(p), Times(p))
  }

  lemma ShareOf(p: Sample)
    ensures p.value.Some? ==>
              Share(p) == if p.aggregated >= 2 then Scaled(p.value.value, p.aggregated) else p.value.value
  {
  }

  function Weighed(pts: seq<Sample>): (sum: real) {
    if pts == [] then 0.0 else Weighed(pts[..|pts| - 1]) + Share(pts[|pts| - 1])
  }

  function Count(pts: seq<Sample>): (n: nat)
    ensures n >= |pts|
  {
    if pts == [] then 0 else Count(pts[..|pts| - 1]) + Times(pts[|pts| - 1])
  }

  class FloatMeanReducer {
    /** None once a value that is not finite has been added. */
    var sum: Option<real>
    var count: uint32

    constructor ()
      ensures sum == Some(0.0) && count == 0
    {
      sum, count := Some(0.0), 0;
    }

    method AggregateFloat(p: Sample)
      modifies this
      ensures sum == if old(sum).None? || p.value.None? then None else Some(old(sum).value + Share(p))
      ensures count == (old(count) + Times(p)) % UINT32
    {
      hide Share, Scaled;
      ShareOf(p);
      if p.aggregated >= 2 {
        sum := if sum.None? || p.value.None? then None else Some(sum.value + Scaled(p.value.value, p.aggregated));
        count := (count + p.aggregated) % UINT32;
      } else {
        sum := if sum.None? || p.value.None? then None else Some(sum.value + p.value.value);
        count := (count + 1) % UINT32;
      }
    }

    /** The point always comes, with the count; dividing by zero gives nothing finite. */
    method Emit() returns (out: Sample)
      ensures out.aggregated == count
      ensures out.value == if sum.None? || count == 0 then None else Some(sum.value / count as real)
    {
      out := Sample(if sum.None? || count == 0 then None else Some(sum.value / count as real), count);
    }
  }

  /** The count as 32 bits keep it. */
  function Kept(pts: seq<Sample>): (n: uint32) {
    Count(pts) % UINT32
  }

  /** What one reducer gives for the samples. */
  function Mean(pts: seq<Sample>): (r: Sample) {
    Sample(if !Finite(pts) || Kept(pts) == 0 then None else Some(Weighed(pts) / Kept(pts) as real), Kept(pts))
  }

  method ReduceMean(pts: seq<Sample>) returns (r: Sample)
    ensures r == Mean(pts)
  {
    hide Weighed, Count, Share, Times;
    NoSums();
    var reducer := new FloatMeanReducer();
    for i := 0 to |pts|
      invariant fresh(reducer) && reducer.count == Kept(pts[..i])
      invariant reducer.sum == if Finite(pts[..i]) then Some(Weighed(pts[..i])) else None
    {
      OneMore(pts, i);
      ModuloAdds(Count(pts[..i]), Times(pts[i]), UINT32);
      reducer.AggregateFloat(pts[i]);
    }
    assert pts[..|pts|] == pts;
    r := reducer.Emit();
  }

  lemma NoSums()
    ensures Weighed([]) == 0.0 && Count([]) == 0
  {
  }

  lemma OneMore(pts: seq<Sample>, i: nat)
    requires i < |pts|
    ensures Weighed(pts[..i + 1]) == Weighed(pts[..i]) + Share(pts[i])
    ensures Count(pts[..i + 1]) == Count(pts[..i]) + Times(pts[i])
    ensures Finite(pts[..i + 1]) <==> Finite(pts[..i]) && pts[i].value.Some?
  {
    hide Share, Times;
    assert pts[..i + 1][..i] == pts[..i];
    assert pts[..i + 1] == pts[..i] + [pts[i]];
  }

  lemma {:induction false} SumsOfConcat(a: seq<Sample>, b: seq<Sample>)
    ensures Weighed(a + b) == Weighed(a) + Weighed(b) && Count(a + b) == Count(a) + Count(b)
  {
    hide Share, Times;
    if b == [] {
      assert a + b == a;
    } else {
      SumsOfConcat(a, b[..|b| - 1]);
      assert (a + b)[..|a + b| - 1] == a + b[..|b| - 1];
    }
  }

  lemma SumsWithout(a: seq<Sample>, k: nat)
    requires k < |a|
    ensures var rest := a[..k] + a[k + 1..];
            && Weighed(a) == Weighed(rest) + Share(a[k]) && Count(a) == Count(rest) + Times(a[k])
            && multiset(rest) == multiset(a) - multiset{a[k]}
  {
    hide Weighed, Count, Share, Times;
    var front, x, back := a[..k], a[k], a[k + 1..];
    WithoutAt(a, k);
    SumsOfConcat(front, [x] + back);
    SumsOfConcat([x], back);
    SumsOfConcat(front, back);
    SumsOfOne(x);
  }

  lemma SumsOfOne(x: Sample)
    ensures Weighed([x]) == Share(x) && Count([x]) == Times(x)
  {
    hide Share, Times;
    assert [x][..0] == [];
  }

  lemma {:induction false} SumsOfPermutation(a: seq<Sample>, b: seq<Sample>)
    requires multiset(a) == multiset(b)
    ensures Weighed(a) == Weighed(b) && Count(a) == Count(b)
    decreases |a|
  {
    hide Weighed, Count, Share, Times;
    SameLength(a, b);
    if a == [] {
      assert b == [];
    } else {
      assert a[0] in multiset(b);
      var k :| 0 <= k < |b| && b[k] == a[0];
      SumsWithout(a, 0);
      SumsWithout(b, k);
      SumsOfPermutation(a[..0] + a[1..], b[..k] + b[k + 1..]);
    }
  }

  // ---------- merging ----------

  function All(groups: seq<seq<Sample>>): (pts: seq<Sample>) {
    if groups == [] then [] else All(groups[..|groups| - 1]) + groups[|groups| - 1]
  }

  /** The partial means of the groups; no reducer runs for a group without points. */
  function Partials(groups: seq<seq<Sample>>): (ps: seq<Sample>) {
    if groups == [] then []
    else
      var g := groups[|groups| - 1];
      Partials(groups[..|groups| - 1]) + if g == [] then [] else [Mean(g)]
  }

  function Merged(groups: seq<seq<Sample>>): (r: Sample) {
    Mean(Partials(groups))
  }

  /** The number of groups that hold points, but a multiple of 2^32 of them. */
  function Voids(groups: seq<seq<Sample>>): (n: nat) {
    if groups == [] then 0
    else
      var g := groups[|groups| - 1];
      Voids(groups[..|groups| - 1]) + if g != [] && Kept(g) == 0 then 1 else 0
  }

  /** A partial mean weighs what its points weigh together, as far as the count was kept; with a
      count of zero it weighs one. */
  lemma MeanWeighs(pts: seq<Sample>)
    ensures Times(Mean(pts)) == if Kept(pts) == 0 then 1 else Kept(pts)
    ensures Mean(pts).value.Some? <==> Finite(pts) && Kept(pts) != 0
    ensures Mean(pts).value.Some? ==> Share(Mean(pts)) == Weighed(pts)
  {
    hide Weighed, Count, Finite;
  }

  lemma FiniteOfConcat(a: seq<Sample>, b: seq<Sample>)
    ensures Finite(a + b) <==> Finite(a) && Finite(b)
  {
    if Finite(a + b) { assert (forall p :: p in a ==> p in a + b) && (forall p :: p in b ==> p in a + b); }
  }

  lemma {:induction false} PartialsWeigh(groups: seq<seq<Sample>>)
    ensures Kept(Partials(groups)) == (Count(All(groups)) + Voids(groups)) % UINT32
    ensures Finite(Partials(groups)) <==> Finite(All(groups)) && Voids(groups) == 0
    ensures Finite(Partials(groups)) ==> Weighed(Partials(groups)) == Weighed(All(groups))
  {
    hide Mean, Times, Share, Weighed, Count, Finite;
    if groups == [] {
      NoSums();
    } else {
      var init, g := groups[..|groups| - 1], groups[|groups| - 1];
      PartialsWeigh(init);
      if g == [] {
        assert Partials(init) + [] == Partials(init) && All(init) + [] == All(init);
      } else {
        OnePartial(Partials(init), All(init), g, Voids(init));
      }
    }
  }

  lemma OnePartial(ps: seq<Sample>, pts: seq<Sample>, g: seq<Sample>, voids: nat)
    requires Kept(ps) == (Count(pts) + voids) % UINT32
    requires Finite(ps) <==> Finite(pts) && voids == 0
    requires Finite(ps) ==> Weighed(ps) == Weighed(pts)
    ensures var more := voids + if Kept(g) == 0 then 1 else 0;
            && Kept(ps + [Mean(g)]) == (Count(pts + g) + more) % UINT32
            && (Finite(ps + [Mean(g)]) <==> Finite(pts + g) && more == 0)
            && (Finite(ps + [Mean(g)]) ==> Weighed(ps + [Mean(g)]) == Weighed(pts + g))
  {
    hide Mean, Times, Share, Weighed, Count, Finite;
    var p := Mean(g);
    MeanWeighs(g);
    SumsOfConcat(pts, g);
    SumsOfConcat(ps, [p]);
    SumsOfOne(p);
    FiniteOfConcat(pts, g);
    FiniteOfConcat(ps, [p]);
    FiniteOfOne(p);
    KeptAdds(Count(ps), Count(pts) + voids, Count(g));
  }

  lemma FiniteOfOne(p: Sample)
    ensures Finite([p]) <==> p.value.Some?
  {
    assert p in [p];
  }

  /** Adding what is kept of c, or one if nothing is kept, adds c and one more if nothing is kept. */
  lemma KeptAdds(a: int, b: int, c: int)
    requires a % UINT32 == b % UINT32
    ensures var k := c % UINT32;
            (a + if k == 0 then 1 else k) % UINT32 == (b + c + if k == 0 then 1 else 0) % UINT32
  {
    var lost := if c % UINT32 == 0 then 1 else 0;
    ModuloAdds(c, a + lost, UINT32);
    ModuloAdds(a, c + lost, UINT32);
    ModuloAdds(b, c + lost, UINT32);
  }

  /** However any number of points is divided among shards, and in whatever order: the merged
      mean and its count are those of one reduction if and only if no shard's count is a multiple
      of 2^32, or the number of such shards is one too and there is no finite mean anyway. */
  lemma MergedMeanIff(groups: seq<seq<Sample>>, pts: seq<Sample>)
    requires multiset(pts) == multiset(All(groups))
    ensures Merged(groups) == Mean(pts) <==>
            Voids(groups) == 0 || (Voids(groups) % UINT32 == 0 && (Kept(pts) == 0 || !Finite(pts)))
  {
    hide Weighed, Count, Partials, All, Voids, Finite;
    PartialsWeigh(groups);
    SumsOfPermutation(pts, All(groups));
    SameFinite(pts, All(groups));
    ModuloAgreesIff(Count(pts), Voids(groups), UINT32);
  }

  lemma SameFinite(a: seq<Sample>, b: seq<Sample>)
    requires multiset(a) == multiset(b)
    ensures Finite(a) <==> Finite(b)
  {
    assert forall p :: p in a <==> p in multiset(a);
    assert forall p :: p in b <==> p in multiset(b);
  }

  /** The emitted value is the true mean of all points behind the samples if and only if these are
      finite and fewer than 2^32, or sum to zero and their count is not lost altogether. */
  lemma MeanIsTrueIff(pts: seq<Sample>)
    requires pts != []
    ensures Mean(pts).value == Some(Weighed(pts) / Count(pts) as real) <==>
            Finite(pts) && (Count(pts) < UINT32 || (Kept(pts) != 0 && Weighed(pts) == 0.0))
  {
    hide Weighed, Count, Finite;
    var w, n, k := Weighed(pts), Count(pts), Kept(pts);
    if k != 0 && n >= UINT32 { QuotientsDiffer(w, k as real, n as real); }
  }

  lemma QuotientsDiffer(w: real, k: real, n: real)
    requires 0.0 < k < n
    ensures w / k == w / n <==> w == 0.0
  {
    var q := w / k;
    assert q * k == w;
    if q == w / n {
      assert q * n == w;
      assert q * (n - k) == 0.0;
    }
  }

  function Sum(pts: seq<Sample>): (sum: real) {
    if pts == [] then 0.0 else Number(pts[0]) + Sum(pts[1..])
  }

  /** For raw points the true mean is their sum over their number. */
  lemma {:induction false} MeanOfRawPoints(pts: seq<Sample>)
    requires forall p :: p in pts ==> p.aggregated == 0
    ensures Weighed(pts) == Sum(pts) && Count(pts) == |pts|
  {
    if pts != [] {
      MeanOfRawPoints(pts[1..]);
      assert pts == [pts[0]] + pts[1..];
      SumsOfConcat([pts[0]], pts[1..]);
      SumsOfOne(pts[0]);
    }
  }

  /** Two samples that stand for 2^31 points each have no mean, so merging them with a third
      fails although all three together have one; by themselves they come back counted once. */
  lemma LostCountLosesMean()
    ensures var half, one := Sample(Some(1.0), 0x8000_0000), Sample(Some(1.0), 0);
            && Merged([[half, half], [one]]) == Sample(None, 2)
            && Mean([half, half, one]) == Sample(Some(4294967297.0), 1)
            && Merged([[half, half]]) == Sample(None, 1) && Mean([half, half]) == Sample(None, 0)
  {
    var half, one := Sample(Some(1.0), 0x8000_0000), Sample(Some(1.0), 0);
    var pair, all := [half, half], [half, half, one];
    hide Weighed, Count;
    SumsOfOne(half);
    SumsOfOne(one);
    SumsOfConcat([half], [half]);
    SumsOfConcat(pair, [one]);
    assert [half] + [half] == pair && pair + [one] == all;
    assert Count(pair) == UINT32 && Count(all) == UINT32 + 1 && Weighed(all) == 4294967297.0;
    var lost, two := [pair], [pair, [one]];
    assert lost[..0] == [] && two[..1] == lost;
    assert All(lost) == [] + pair && All(two) == All(lost) + [one];
    PartialsWeigh(lost);
    PartialsWeigh(two);
    assert Voids(lost) == 1 && Voids(two) == 1;
  }
}
