/** Routing of a write batch to shards: `PointsWriter.MapShards`, `ShardMapping` and
    `WriteWindow` of coordinator/points_writer.go. */
module ShardMappings {
  import opened Optional
  import opened ShardLists

  /** `hash` is the point's HashID; `key` stands for everything routing does not look at. */
  datatype Point = Point(time: int, hash: nat, key: int)

  const MIN_NANO_TIME: int := -0x8000_0000_0000_0000 + 2

  // ---------- write window ----------

  datatype WriteWindow = WriteWindow(before: Option<int>, after: Option<int>)

  datatype RetentionPolicy = RetentionPolicy(duration: int, pastWriteLimit: int, futureWriteLimit: int)

  function NewWriteWindow(rp: RetentionPolicy, now: int): WriteWindow {
    WriteWindow(if rp.pastWriteLimit > 0 then Some(now - rp.pastWriteLimit) else None,
                if rp.futureWriteLimit > 0 then Some(now + rp.futureWriteLimit) else None)
  }

  predicate Within(w: WriteWindow, t: int) {
    !(w.before.Some? && t < w.before.value) && !(w.after.Some? && w.after.value < t)
  }

  datatype BoundType = RetentionPolicyBound | WriteWindowLowerBound | WriteWindowUpperBound

  /** The bound of the window that t violates. */
  function Violated(w: WriteWindow, t: int): (v: (int, BoundType))
    requires !Within(w, t)
  {
    if w.before.Some? && t < w.before.value then (w.before.value, WriteWindowLowerBound)
    else (w.after.value, WriteWindowUpperBound)
  }

  function MinTime(rp: RetentionPolicy, now: int): int {
    if rp.duration > 0 then now - rp.duration else MIN_NANO_TIME
  }

  /** The point's age and lead keep every write limit that is set. */
  predicate KeepsLimits(rp: RetentionPolicy, now: int, t: int) {
    (rp.pastWriteLimit > 0 ==> now - t <= rp.pastWriteLimit)
    && (rp.futureWriteLimit > 0 ==> t - now <= rp.futureWriteLimit)
  }

  /** The point is not older than the policy keeps points. */
  predicate InRetention(rp: RetentionPolicy, now: int, t: int) {
    if rp.duration > 0 then now - t <= rp.duration else MIN_NANO_TIME <= t
  }

  lemma ScopeByAge(rp: RetentionPolicy, now: int, t: int)
    ensures Within(NewWriteWindow(rp, now), t) <==> KeepsLimits(rp, now, t)
    ensures MinTime(rp, now) <= t <==> InRetention(rp, now, t)
  {
  }

  function ShardFor(g: ShardGroup, p: Point): (shard: nat)
    requires g.shards != []
    ensures shard == g.shards[p.hash % |g.shards|]
  {
    if |g.shards| == 1 then g.shards[0] else g.shards[p.hash % |g.shards|]
  }

  // ---------- the mapping ----------

  /** A Go slice: its elements and its capacity. */
  datatype Slice = Slice(elems: seq<Point>, cap: nat)

  function SliceAt(points: map<nat, Slice>, id: nat): (s: Slice) {
    if id in points then points[id] else Slice([], 0)
  }

  /** Appends p to a slice, which is started afresh if its capacity is below n. */
  function Appended(slice: Slice, n: nat, p: Point): (r: Slice) {
    var s := if slice.cap < n then Slice([], n) else slice;
    Slice(s.elems + [p], if |s.elems| < s.cap then s.cap else |s.elems| + 1)
  }

  datatype DroppedPoint = DroppedPoint(point: Point, bound: int, reason: BoundType)

  predicate Beyond(late: bool, a: DroppedPoint, b: DroppedPoint) {
    if late then a.point.time > b.point.time else a.point.time < b.point.time
  }

  /** The latest, or the earliest, of the dropped points so far once d is dropped too. */
  function Extreme(late: bool, sofar: Option<DroppedPoint>, d: DroppedPoint): (r: Option<DroppedPoint>) {
    if sofar.None? || Beyond(late, d, sofar.value) then Some(d) else sofar
  }

  class ShardMapping {
    const n: nat
    var points: map<nat, Slice>
    /** The keys of Shards. */
    var shards: set<nat>
    var maxDropped: Option<DroppedPoint>
    var minDropped: Option<DroppedPoint>
    var retentionDropped: nat
    var writeWindowDropped: nat

    constructor (n: nat)
      ensures this.n == n && points == map[] && shards == {} && retentionDropped == 0 && writeWindowDropped == 0
      ensures maxDropped.None? && minDropped.None?
    {
      this.n := n;
      points, shards, retentionDropped, writeWindowDropped := map[], {}, 0, 0;
      maxDropped, minDropped := None, None;
    }

    function Dropped(): (d: nat)
      reads this
    {
      retentionDropped + writeWindowDropped
    }

    method MapPoint(id: nat, p: Point)
      modifies this`points, this`shards
      ensures points == old(points)[id := Appended(SliceAt(old(points), id), n, p)]
      ensures shards == old(shards) + {id}
    {
      var slice := SliceAt(points, id);
      if slice.cap < n {
        slice := Slice([], n);
      }
      var grown := if |slice.elems| < slice.cap then slice.cap else |slice.elems| + 1;
      points := points[id := Slice(slice.elems + [p], grown)];
      shards := shards + {id};
    }

    method AddDropped(d: DroppedPoint)
      modifies this`retentionDropped, this`writeWindowDropped, this`maxDropped, this`minDropped
      ensures maxDropped == Extreme(true, old(maxDropped), d) && minDropped == Extreme(false, old(minDropped), d)
      ensures retentionDropped == old(retentionDropped) + (if d.reason.RetentionPolicyBound? then 1 else 0)
      ensures writeWindowDropped == old(writeWindowDropped) + (if d.reason.RetentionPolicyBound? then 0 else 1)
    {
      if maxDropped.None? || d.point.time > maxDropped.value.point.time { maxDropped := Some(d); }
      if minDropped.None? || d.point.time < minDropped.value.point.time { minDropped := Some(d); }
      match d.reason
      case RetentionPolicyBound => retentionDropped := retentionDropped + 1;
      case WriteWindowLowerBound => writeWindowDropped := writeWindowDropped + 1;
      case WriteWindowUpperBound => writeWindowDropped := writeWindowDropped + 1;
    }
  }

  // ---------- what a routing is ----------

  /** Where each point of the batch went: a shard, or nowhere. */
  type Route = seq<Option<nat>>

  /** The points sent to one shard, in batch order. */
  function Sent(ps: seq<Point>, route: Route, id: nat): (r: seq<Point>)
    requires |ps| == |route|
    ensures |r| <= |ps|
  {
    if ps == [] then []
    else
      var front := Sent(ps[..|ps| - 1], route[..|ps| - 1], id);
      if route[|ps| - 1] == Some(id) then front + [ps[|ps| - 1]] else front
  }

  function DroppedIn(route: Route): (n: nat)
    ensures n <= |route|
  {
    if route == [] then 0 else DroppedIn(route[..|route| - 1]) + if route[|route| - 1].None? then 1 else 0
  }

  function TotalSent(ps: seq<Point>, route: Route, bound: nat): (n: nat)
    requires |ps| == |route|
  {
    if bound == 0 then 0 else TotalSent(ps, route, bound - 1) + |Sent(ps, route, bound - 1)|
  }

  lemma {:induction false} TotalSentOfOneMore(ps: seq<Point>, route: Route, p: Point, to: Option<nat>, bound: nat)
    requires |ps| == |route|
    ensures TotalSent(ps + [p], route + [to], bound)
         == TotalSent(ps, route, bound) + if to.Some? && to.value < bound then 1 else 0
  {
    if bound > 0 {
      TotalSentOfOneMore(ps, route, p, to, bound - 1);
      SentOfOneMore(ps, route, p, to, bound - 1);
    }
  }

  lemma SentOfOneMore(ps: seq<Point>, route: Route, p: Point, to: Option<nat>, id: nat)
    requires |ps| == |route|
    ensures Sent(ps + [p], route + [to], id) == Sent(ps, route, id) + if to == Some(id) then [p] else []
  {
    var n := |ps|;
    assert (ps + [p])[..n] == ps && (route + [to])[..n] == route;
    assert (ps + [p])[n] == p && (route + [to])[n] == to;
  }

  /** Every point is either dropped or in exactly one shard's slice: nothing is lost or
      duplicated. */
  lemma {:induction false} RoutingConserves(ps: seq<Point>, route: Route, bound: nat)
    requires |ps| == |route|
    requires forall i :: 0 <= i < |route| && route[i].Some? ==> route[i].value < bound
    ensures TotalSent(ps, route, bound) + DroppedIn(route) == |ps|
  {
    if ps == [] {
      NothingSent(bound);
    } else {
      var n := |ps| - 1;
      RoutingConserves(ps[..n], route[..n], bound);
      TotalSentOfOneMore(ps[..n], route[..n], ps[n], route[n], bound);
      assert ps == ps[..n] + [ps[n]] && route == route[..n] + [route[n]];
    }
  }

  /** The points that a mapping holds, over all shards. */
  ghost function Mapped(points: map<nat, Slice>): (n: nat) {
    if points == map[] then 0
    else var id :| id in points; |points[id].elems| + Mapped(points - {id})
  }

  /** The same, shard by shard up to a bound. */
  function MappedBelow(points: map<nat, Slice>, bound: nat): (n: nat) {
    if bound == 0 then 0 else MappedBelow(points, bound - 1) + |SliceAt(points, bound - 1).elems|
  }

  lemma {:induction false} MappedWithout(points: map<nat, Slice>, id: nat, bound: nat)
    requires id in points
    ensures MappedBelow(points, bound) ==
            MappedBelow(points - {id}, bound) + if id < bound then |points[id].elems| else 0
  {
    if bound > 0 { MappedWithout(points, id, bound - 1); }
  }

  lemma {:induction false} NoneMappedBelow(bound: nat)
    ensures MappedBelow(map[], bound) == 0
  {
    if bound > 0 { NoneMappedBelow(bound - 1); }
  }

  lemma {:induction false} MappedIsBelow(points: map<nat, Slice>, bound: nat)
    requires forall id :: id in points ==> id < bound
    ensures Mapped(points) == MappedBelow(points, bound)
    decreases |points|
  {
    if points == map[] {
      NoneMappedBelow(bound);
    } else {
      var id :| id in points && Mapped(points) == |points[id].elems| + Mapped(points - {id});
      assert (points - {id}).Keys == points.Keys - {id};
      MappedIsBelow(points - {id}, bound);
      MappedWithout(points, id, bound);
    }
  }

  lemma {:induction false} MappedIsSent(points: map<nat, Slice>, n: nat, ps: seq<Point>, route: Route, bound: nat)
    requires Accounts(points, n, ps, route)
    ensures MappedBelow(points, bound) == TotalSent(ps, route, bound)
  {
    if bound > 0 {
      MappedIsSent(points, n, ps, route, bound - 1);
      assert SliceAt(points, bound - 1).elems == Sent(ps, route, bound - 1);
    }
  }

  /** A number above every shard of the route. */
  function Above(route: Route): (bound: nat)
    ensures forall i :: 0 <= i < |route| && route[i].Some? ==> route[i].value < bound
  {
    if route == [] then 0
    else
      var bound, to := Above(route[..|route| - 1]), route[|route| - 1];
      if to.Some? && to.value >= bound then to.value + 1 else bound
  }

  lemma {:induction false} NothingSentAbove(ps: seq<Point>, route: Route, id: nat)
    requires |ps| == |route| && forall i :: 0 <= i < |route| ==> route[i] != Some(id)
    ensures Sent(ps, route, id) == []
  {
    if ps != [] { NothingSentAbove(ps[..|ps| - 1], route[..|ps| - 1], id); }
  }

  /** Mapped points plus points routed nowhere is the size of the batch. */
  lemma MappedPlusDropped(points: map<nat, Slice>, n: nat, ps: seq<Point>, route: Route)
    requires Accounts(points, n, ps, route)
    ensures Mapped(points) + DroppedIn(route) == |ps|
  {
    var bound := Above(route);
    forall id | id in points ensures id < bound {
      assert SliceAt(points, id).elems == Sent(ps, route, id);
      if id >= bound { NothingSentAbove(ps, route, id); }
    }
    MappedIsBelow(points, bound);
    MappedIsSent(points, n, ps, route, bound);
    RoutingConserves(ps, route, bound);
  }

  lemma {:induction false} NothingSent(bound: nat)
    ensures TotalSent([], [], bound) == 0
  {
    if bound > 0 { NothingSent(bound - 1); }
  }

  /** Which shard, if any, a point may go to given the groups made for the batch. */
  ghost predicate RoutedWell(p: Point, to: Option<nat>, groups: multiset<ShardGroup>, min: int, w: WriteWindow) {
    && (to.Some? <==> Within(w, p.time) && Covered(p.time, groups))
    && (Within(w, p.time) && min <= p.time ==> to.Some?)
    && (to.Some? ==> exists g ::
          g in groups && FirstChoice(g, p.time, groups) && g.shards != [] && to.value == ShardFor(g, p))
  }

  /** The group contains t and, when the groups of the batch are orderly, it is the first in the
      documented order among those that do. */
  ghost predicate FirstChoice(g: ShardGroup, t: int, groups: multiset<ShardGroup>) {
    Contains(g, t) && (Orderly(groups) ==> forall h :: h in groups && Contains(h, t) ==> NotAfter(g, h))
  }

  ghost predicate Covered(t: int, groups: multiset<ShardGroup>) {
    exists g :: g in groups && Contains(g, t)
  }

  /** Points dropped because no group covers them; the others dropped are out of the window. */
  ghost function UncoveredIn(ps: seq<Point>, groups: multiset<ShardGroup>): (n: nat) {
    if ps == [] then 0
    else UncoveredIn(ps[..|ps| - 1], groups) + if Covered(ps[|ps| - 1].time, groups) then 0 else 1
  }

  /** The slices hold exactly what `route` sent to each shard, in order. */
  ghost predicate Accounts(points: map<nat, Slice>, n: nat, ps: seq<Point>, route: Route) {
    && |route| == |ps|
    && (forall id :: SliceAt(points, id).elems == Sent(ps, route, id))
    && (forall id :: id in points ==> points[id].elems != [] && points[id].cap == n)
  }

  /** With n the size of the whole batch, the capacity test of MapPoint fires only for a
      shard's first point, so it never discards points already mapped. */
  lemma MapPointKeepsAll(points: map<nat, Slice>, n: nat, ps: seq<Point>, route: Route, id: nat, p: Point)
    requires Accounts(points, n, ps, route) && |ps| < n
    ensures Accounts(points[id := Appended(SliceAt(points, id), n, p)], n, ps + [p], route + [Some(id)])
  {
    forall x { SentOfOneMore(ps, route, p, Some(id), x); }
  }

  lemma DropKeepsAll(points: map<nat, Slice>, n: nat, ps: seq<Point>, route: Route, p: Point)
    requires Accounts(points, n, ps, route)
    ensures Accounts(points, n, ps + [p], route + [None])
  {
    forall x { SentOfOneMore(ps, route, p, None, x); }
  }

  // ---------- MapShards ----------

  /** The answer of MetaClient.CreateShardGroup. */
  datatype Creation = Failed | NilGroup | Created(group: ShardGroup)

  datatype MapError = Ok | PolicyNotFound | CreateFailed | NilShardGroup | NoShards

  /** The k-th call of CreateShardGroup is `create(k, t)`. Its contract, as stated in
      services/meta/data.go, is that the group contains t. */
  ghost predicate CreatesContaining(create: (nat, int) -> Creation) {
    forall k: nat, t: int :: create(k, t).Created? ==>
      Contains(create(k, t).group, t) && create(k, t).group.start != ZERO_TIME && create(k, t).group.end != ZERO_TIME
  }

  /** Group k is the answer to the k-th call, made for the point at `sources[k]`: that point
      is in scope and none of the groups made before contains it. */
  ghost predicate CreatedOnDemand(made: seq<ShardGroup>, sources: seq<nat>, ps: seq<Point>, min: int, w: WriteWindow,
                                  create: (nat, int) -> Creation) {
    && |made| == |sources|
    && (forall k :: 0 <= k < |made| ==>
          sources[k] < |ps| && CreatedFor(made[k], k, ps[sources[k]].time, min, w, create))
    && (forall j, k :: 0 <= j < k < |made| ==> sources[j] < sources[k])
    && (forall j, k :: 0 <= j < k < |made| ==> !Contains(made[j], ps[sources[k]].time))
  }

  ghost predicate CreatedFor(g: ShardGroup, call: nat, t: int, min: int, w: WriteWindow,
                             create: (nat, int) -> Creation) {
    min <= t && Within(w, t) && create(call, t) == Created(g)
  }

  /** The first n points that are in scope each have a group. */
  ghost predicate AllCovered(ps: seq<Point>, n: nat, groups: multiset<ShardGroup>, min: int, w: WriteWindow)
    requires n <= |ps|
  {
    forall i :: 0 <= i < n && min <= ps[i].time && Within(w, ps[i].time) ==> Covered(ps[i].time, groups)
  }

  lemma CreatedOneMore(made: seq<ShardGroup>, sources: seq<nat>, ps: seq<Point>, i: nat, min: int, w: WriteWindow,
                       create: (nat, int) -> Creation, g: ShardGroup)
    requires i < |ps| && CreatedOnDemand(made, sources, ps, min, w, create)
    requires forall k :: 0 <= k < |sources| ==> sources[k] < i
    requires CreatedFor(g, |made|, ps[i].time, min, w, create) && !Covered(ps[i].time, multiset(made))
    ensures CreatedOnDemand(made + [g], sources + [i], ps, min, w, create)
  {
    forall j | 0 <= j < |made| ensures !Contains(made[j], ps[i].time) {
      assert made[j] in multiset(made);
    }
  }

  lemma CoveredOneMore(ps: seq<Point>, i: nat, made: seq<ShardGroup>, g: ShardGroup, min: int, w: WriteWindow)
    requires i < |ps| && AllCovered(ps, i, multiset(made), min, w) && Contains(g, ps[i].time)
    ensures AllCovered(ps, i + 1, multiset(made + [g]), min, w)
  {
    assert g in multiset(made + [g]);
    forall x | 0 <= x < i && Covered(ps[x].time, multiset(made)) ensures Covered(ps[x].time, multiset(made + [g])) {
      var h :| h in multiset(made) && Contains(h, ps[x].time);
      assert h in multiset(made + [g]);
    }
  }

  lemma CoveredByItems(items: seq<ShardGroup>, t: int)
    ensures Covered(t, multiset(items)) <==> exists g :: g in items && Contains(g, t)
  {
    assert forall g :: g in items <==> g in multiset(items);
  }

  method NeedsGroup(list: SgList, t: int, min: int, w: WriteWindow) returns (b: bool)
    requires list.Valid()
    modifies list`items
    ensures list.Valid() && multiset(list.items) == multiset(old(list.items))
    ensures b <==> min <= t && Within(w, t) && !Covered(t, multiset(list.items))
  {
    if t < min { return false; }
    var covered := list.Covers(t);
    CoveredByItems(list.items, t);
    return !covered && Within(w, t);
  }

  /** One round of the first loop of MapShards: a group for ps[i] if it is in scope and not
      yet covered. */
  method CreateOne(list: SgList, ps: seq<Point>, i: nat, min: int, w: WriteWindow, create: (nat, int) -> Creation,
                   calls: nat, ghost made: seq<ShardGroup>, ghost sources: seq<nat>)
    returns (err: MapError, calls': nat, ghost made': seq<ShardGroup>, ghost sources': seq<nat>)
    requires i < |ps| && list.Valid() && multiset(list.items) == multiset(made) && CreatesContaining(create)
    requires calls == |made| && CreatedOnDemand(made, sources, ps, min, w, create)
    requires forall k :: 0 <= k < |sources| ==> sources[k] < i
    requires AllCovered(ps, i, multiset(made), min, w)
    modifies list
    ensures list.Valid() && multiset(list.items) == multiset(made')
    ensures calls' == |made'| && CreatedOnDemand(made', sources', ps, min, w, create)
    ensures forall k :: 0 <= k < |sources'| ==> sources'[k] < i + 1
    ensures err.Ok? ==> AllCovered(ps, i + 1, multiset(made'), min, w)
    ensures !err.Ok? ==> made' == made && create(|made|, ps[i].time) == if err.CreateFailed? then Failed else NilGroup
    ensures err.Ok? || err.CreateFailed? || err.NilShardGroup?
  {
    hide CreatedOnDemand, Covered, Contains, Within;
    err, calls', made', sources' := Ok, calls, made, sources;
    var t := ps[i].time;
    var needed := NeedsGroup(list, t, min, w);
    if !needed { return; }
    match create(calls, t)
    case Failed => err := CreateFailed;
    case NilGroup => err := NilShardGroup;
    case Created(g) =>
      list.Add(g);
      CreatedOneMore(made, sources, ps, i, min, w, create, g);
      CoveredOneMore(ps, i, made, g, min, w);
      calls' := calls + 1;
      made', sources' := made + [g], sources + [i];
  }

  method CreateGroups(ps: seq<Point>, min: int, w: WriteWindow, create: (nat, int) -> Creation)
    returns (list: SgList, err: MapError, ghost made: seq<ShardGroup>, ghost sources: seq<nat>)
    requires CreatesContaining(create)
    ensures fresh(list) && list.Valid() && multiset(list.items) == multiset(made)
    ensures CreatedOnDemand(made, sources, ps, min, w, create)
    ensures err.Ok? ==> AllCovered(ps, |ps|, multiset(made), min, w)
    ensures err.Ok? || err.CreateFailed? || err.NilShardGroup?
    ensures err.CreateFailed? ==> exists i :: 0 <= i < |ps| && create(|made|, ps[i].time) == Failed
    ensures err.NilShardGroup? ==> exists i :: 0 <= i < |ps| && create(|made|, ps[i].time) == NilGroup
  {
    list := new SgList();
    made, sources, err := [], [], Ok;
    var calls := 0;
    for i := 0 to |ps|
      invariant fresh(list) && list.Valid() && multiset(list.items) == multiset(made) && err.Ok?
      invariant calls == |made| && CreatedOnDemand(made, sources, ps, min, w, create)
      invariant forall k :: 0 <= k < |sources| ==> sources[k] < i
      invariant AllCovered(ps, i, multiset(made), min, w)
    {
      err, calls, made, sources := CreateOne(list, ps, i, min, w, create, calls, made, sources);
      if !err.Ok? { return; }
    }
  }

  lemma ChoiceInItems(items: seq<ShardGroup>, t: int, g: ShardGroup)
    requires g in items && Contains(g, t) && (Orderly(multiset(items)) ==> Preferred(items, t, g))
    ensures g in multiset(items) && FirstChoice(g, t, multiset(items))
  {
    hide Orderly, NotAfter;
    assert forall h :: h in items <==> h in multiset(items);
  }

  ghost predicate AllRoutedWell(ps: seq<Point>, route: Route, groups: multiset<ShardGroup>, min: int, w: WriteWindow) {
    |route| <= |ps| && forall i :: 0 <= i < |route| ==> RoutedWell(ps[i], route[i], groups, min, w)
  }

  lemma DroppedOneMore(route: Route, to: Option<nat>)
    ensures DroppedIn(route + [to]) == DroppedIn(route) + if to.None? then 1 else 0
  {
    assert (route + [to])[..|route|] == route;
  }

  lemma UncoveredOneMore(ps: seq<Point>, p: Point, groups: multiset<ShardGroup>)
    ensures UncoveredIn(ps + [p], groups) == UncoveredIn(ps, groups) + if Covered(p.time, groups) then 0 else 1
  {
    assert (ps + [p])[..|ps|] == ps;
  }

  lemma RoutedOneMore(ps: seq<Point>, route: Route, to: Option<nat>, groups: multiset<ShardGroup>,
                      min: int, w: WriteWindow)
    requires AllRoutedWell(ps, route, groups, min, w) && |route| < |ps|
    requires RoutedWell(ps[|route|], to, groups, min, w)
    ensures AllRoutedWell(ps, route + [to], groups, min, w)
  {
    var next := route + [to];
    forall i | 0 <= i < |next| ensures RoutedWell(ps[i], next[i], groups, min, w) {
      if i < |route| { assert next[i] == route[i]; }
    }
  }

  // ---------- the earliest and the latest dropped point ----------

  /** Point i is dropped and no other dropped point is beyond it, nor as far and before it in the batch. */
  ghost predicate IsExtreme(late: bool, ps: seq<Point>, route: Route, i: int) {
    && 0 <= i < |route| <= |ps| && route[i].None?
    && forall j :: 0 <= j < |route| && route[j].None? ==>
         if ps[j].time == ps[i].time then i <= j else (late <==> ps[j].time < ps[i].time)
  }

  /** The bound and the reason are those for which p is dropped: the age first, then the window. */
  ghost predicate Explains(d: DroppedPoint, groups: multiset<ShardGroup>, min: int, w: WriteWindow) {
    if !Covered(d.point.time, groups) then d.bound == min && d.reason.RetentionPolicyBound?
    else !Within(w, d.point.time) && (d.bound, d.reason) == Violated(w, d.point.time)
  }

  /** d is the first of the latest, or of the earliest, dropped points, with the bound it violates. */
  ghost predicate Reported(late: bool, d: Option<DroppedPoint>, ps: seq<Point>, route: Route,
                           groups: multiset<ShardGroup>, min: int, w: WriteWindow) {
    if d.None? then forall j :: 0 <= j < |route| ==> route[j].Some?
    else Explains(d.value, groups, min, w) && exists i :: IsExtreme(late, ps, route, i) && ps[i] == d.value.point
  }

  lemma ReportedOneMore(late: bool, sofar: Option<DroppedPoint>, d: DroppedPoint, ps: seq<Point>, route: Route,
                        groups: multiset<ShardGroup>, min: int, w: WriteWindow)
    requires Reported(late, sofar, ps, route, groups, min, w) && Explains(d, groups, min, w)
    requires |route| < |ps| && d.point == ps[|route|]
    ensures Reported(late, Extreme(late, sofar, d), ps, route + [None], groups, min, w)
  {
    hide Explains;
    var next := route + [None];
    if sofar.None? {
      assert IsExtreme(late, ps, next, |route|);
    } else {
      var i :| IsExtreme(late, ps, route, i) && ps[i] == sofar.value.point;
      assert IsExtreme(late, ps, next, if Beyond(late, d, sofar.value) then |route| else i);
    }
  }

  lemma ReportedStill(late: bool, sofar: Option<DroppedPoint>, to: Option<nat>, ps: seq<Point>, route: Route,
                      groups: multiset<ShardGroup>, min: int, w: WriteWindow)
    requires Reported(late, sofar, ps, route, groups, min, w) && |route| < |ps| && to.Some?
    ensures Reported(late, sofar, ps, route + [to], groups, min, w)
  {
    hide Explains;
    if sofar.Some? {
      var i :| IsExtreme(late, ps, route, i) && ps[i] == sofar.value.point;
      assert IsExtreme(late, ps, route + [to], i);
    }
  }

  // ---------- the second loop ----------

  /** What the second loop of MapShards decides for one point. */
  datatype Decision = Drop(bound: int, reason: BoundType) | EmptyGroup(group: ShardGroup) | To(id: nat)

  method Decide(list: SgList, p: Point, min: int, w: WriteWindow) returns (d: Decision)
    requires list.Valid()
    requires Within(w, p.time) && min <= p.time ==> Covered(p.time, multiset(list.items))
    modifies list`items
    ensures list.Valid() && multiset(list.items) == multiset(old(list.items))
    ensures d.Drop? ==> Explains(DroppedPoint(p, d.bound, d.reason), multiset(list.items), min, w)
    ensures d.Drop? ==> RoutedWell(p, None, multiset(list.items), min, w)
    ensures d.To? ==> RoutedWell(p, Some(d.id), multiset(list.items), min, w) && Covered(p.time, multiset(list.items))
    ensures d.EmptyGroup? ==> d.group in multiset(list.items) && Contains(d.group, p.time) && d.group.shards == []
  {
    var sg := list.ShardGroupAt(p.time);
    CoveredByItems(list.items, p.time);
    if sg.None? { return Drop(min, RetentionPolicyBound); }
    if !Within(w, p.time) {
      var (bound, reason) := Violated(w, p.time);
      return Drop(bound, reason);
    }
    ChoiceInItems(list.items, p.time, sg.value);
    if |sg.value.shards| <= 0 { return EmptyGroup(sg.value); }
    return To(ShardFor(sg.value, p));
  }

  /** The first |route| points have been dealt with. */
  ghost predicate Tally(m: ShardMapping, ps: seq<Point>, route: Route, groups: multiset<ShardGroup>,
                        min: int, w: WriteWindow)
    reads m
  {
    && m.n == |ps| && |route| <= |ps| && m.shards == m.points.Keys
    && Accounts(m.points, |ps|, ps[..|route|], route)
    && m.Dropped() == DroppedIn(route) && m.retentionDropped == UncoveredIn(ps[..|route|], groups)
    && Reported(true, m.maxDropped, ps, route, groups, min, w)
    && Reported(false, m.minDropped, ps, route, groups, min, w)
  }

  method Record(m: ShardMapping, ghost ps: seq<Point>, p: Point, d: Decision, ghost route: Route,
                ghost groups: multiset<ShardGroup>, ghost min: int, ghost w: WriteWindow)
    returns (ghost to: Option<nat>)
    requires |route| < |ps| && p == ps[|route|] && Tally(m, ps, route, groups, min, w) && !d.EmptyGroup?
    requires if d.To? then Covered(p.time, groups) else Explains(DroppedPoint(p, d.bound, d.reason), groups, min, w)
    modifies m
    ensures to == if d.To? then Some(d.id) else None
    ensures Tally(m, ps, route + [to], groups, min, w)
  {
    hide Reported, Accounts, DroppedIn, UncoveredIn, Extreme, Covered;
    ghost var i := |route|;
    to := if d.To? then Some(d.id) else None;
    assert ps[..i + 1] == ps[..i] + [p];
    UncoveredOneMore(ps[..i], p, groups);
    DroppedOneMore(route, to);
    if d.To? {
      MapPointKeepsAll(m.points, |ps|, ps[..i], route, d.id, p);
      ReportedStill(true, m.maxDropped, to, ps, route, groups, min, w);
      ReportedStill(false, m.minDropped, to, ps, route, groups, min, w);
      m.MapPoint(d.id, p);
    } else {
      DropKeepsAll(m.points, |ps|, ps[..i], route, p);
      var dropped := DroppedPoint(p, d.bound, d.reason);
      ReportedOneMore(true, m.maxDropped, dropped, ps, route, groups, min, w);
      ReportedOneMore(false, m.minDropped, dropped, ps, route, groups, min, w);
      m.AddDropped(dropped);
    }
  }

  lemma NothingRouted(m: ShardMapping, ps: seq<Point>, groups: multiset<ShardGroup>, min: int, w: WriteWindow)
    requires m.n == |ps| && m.points == map[] && m.shards == {} && m.Dropped() == 0
    requires m.maxDropped.None? && m.minDropped.None?
    ensures Tally(m, ps, [], groups, min, w) && AllRoutedWell(ps, [], groups, min, w)
  {
  }

  method RoutePoints(ps: seq<Point>, list: SgList, min: int, w: WriteWindow)
    returns (m: ShardMapping, ok: bool, ghost route: Route)
    requires list.Valid() && AllCovered(ps, |ps|, multiset(list.items), min, w)
    modifies list`items
    ensures list.Valid() && multiset(list.items) == multiset(old(list.items)) && fresh(m)
    ensures ok ==> |route| == |ps| && Tally(m, ps, route, multiset(list.items), min, w)
    ensures ok ==> AllRoutedWell(ps, route, multiset(list.items), min, w)
    ensures !ok ==> exists i, g ::
            0 <= i < |ps| && g in multiset(list.items) && Contains(g, ps[i].time) && g.shards == []
  {
    hide Tally, AllRoutedWell, RoutedWell, Explains, Covered;
    m := new ShardMapping(|ps|);
    route := [];
    ghost var groups := multiset(list.items);
    NothingRouted(m, ps, groups, min, w);
    for i := 0 to |ps|
      invariant list.Valid() && multiset(list.items) == groups && fresh(m)
      invariant |route| == i && Tally(m, ps, route, groups, min, w) && AllRoutedWell(ps, route, groups, min, w)
    {
      var d := Decide(list, ps[i], min, w);
      if d.EmptyGroup? { return m, false, route; }
      ghost var to := Record(m, ps, ps[i], d, route, groups, min, w);
      RoutedOneMore(ps, route, to, groups, min, w);
      route := route + [to];
    }
    ok := true;
  }

  /** Points that break a write limit go nowhere; points that keep them and are in retention go to
      a shard. */
  predicate RoutedByAge(rp: RetentionPolicy, now: int, windowNow: int, ps: seq<Point>, route: Route)
    requires |route| == |ps|
  {
    forall i :: 0 <= i < |ps| ==>
      && (!KeepsLimits(rp, windowNow, ps[i].time) ==> route[i].None?)
      && (KeepsLimits(rp, windowNow, ps[i].time) && InRetention(rp, now, ps[i].time) ==> route[i].Some?)
  }

  lemma AgeDecides(rp: RetentionPolicy, now: int, windowNow: int, ps: seq<Point>, route: Route,
                   groups: multiset<ShardGroup>)
    requires |route| == |ps|
    requires AllRoutedWell(ps, route, groups, MinTime(rp, now), NewWriteWindow(rp, windowNow))
    ensures RoutedByAge(rp, now, windowNow, ps, route)
  {
    hide FirstChoice, Covered, KeepsLimits, InRetention, Within, NewWriteWindow, MinTime;
    forall i | 0 <= i < |ps|
      ensures !KeepsLimits(rp, windowNow, ps[i].time) ==> route[i].None?
      ensures KeepsLimits(rp, windowNow, ps[i].time) && InRetention(rp, now, ps[i].time) ==> route[i].Some?
    {
      ScopeByAge(rp, windowNow, ps[i].time);
      ScopeByAge(rp, now, ps[i].time);
    }
  }

  /** On success every point of the batch is accounted for by `route`: the slice of each
      shard is exactly the points routed to it in batch order, and the points routed nowhere
      are the dropped ones. */
  method MapShards(rp: Option<RetentionPolicy>, now: int, windowNow: int, ps: seq<Point>,
                   create: (nat, int) -> Creation)
    returns (mapping: ShardMapping?, err: MapError,
             ghost made: seq<ShardGroup>, ghost sources: seq<nat>, ghost route: Route)
    requires CreatesContaining(create)
    ensures rp.None? <==> err.PolicyNotFound?
    ensures err.Ok? <==> mapping != null
    ensures rp.Some? ==>
      CreatedOnDemand(made, sources, ps, MinTime(rp.value, now), NewWriteWindow(rp.value, windowNow), create)
    ensures err.Ok? ==>
      && fresh(mapping)
      && |route| == |ps| && Accounts(mapping.points, |ps|, ps, route) && mapping.shards == mapping.points.Keys
      && AllRoutedWell(ps, route, multiset(made), MinTime(rp.value, now), NewWriteWindow(rp.value, windowNow))
      && mapping.Dropped() == DroppedIn(route) && mapping.retentionDropped == UncoveredIn(ps, multiset(made))
      && Mapped(mapping.points) + mapping.Dropped() == |ps|
      && RoutedByAge(rp.value, now, windowNow, ps, route)
    ensures err.Ok? ==>
      var min, w := MinTime(rp.value, now), NewWriteWindow(rp.value, windowNow);
      && Reported(true, mapping.maxDropped, ps, route, multiset(made), min, w)
      && Reported(false, mapping.minDropped, ps, route, multiset(made), min, w)
    ensures err.CreateFailed? ==> exists i :: 0 <= i < |ps| && create(|made|, ps[i].time) == Failed
    ensures err.NilShardGroup? ==> exists i :: 0 <= i < |ps| && create(|made|, ps[i].time) == NilGroup
    ensures err.NoShards? ==> exists i, g ::
            0 <= i < |ps| && g in multiset(made) && Contains(g, ps[i].time) && g.shards == []
  {
    mapping, made, sources, route := null, [], [], [];
    if rp.None? { err := PolicyNotFound; return; }
    var min, w := MinTime(rp.value, now), NewWriteWindow(rp.value, windowNow);
    var list, m, ok;
    list, err, made, sources := CreateGroups(ps, min, w, create);
    if err.Ok? {
      m, ok, route := RoutePoints(ps, list, min, w);
      assert ps[..|ps|] == ps;
      if ok {
        mapping := m;
        MappedPlusDropped(m.points, |ps|, ps, route);
        AgeDecides(rp.value, now, windowNow, ps, route, multiset(made));
      } else {
        err := NoShards;
      }
    }
  }

  // ---------- a batch that loses the documented preference ----------

  const CUT := ShardGroup(1, 0, 40, Some(10), [1])
  const MIDDLE := ShardGroup(2, 10, 15, None, [2])
  const LATE := ShardGroup(3, 15, 50, None, [3])

  /** A truncated group is given only for a time before its truncation. */
  function GroupsForExample(call: nat, t: int): (c: Creation)
    ensures c.Created? ==> Contains(c.group, t) && t < EffectiveEnd(c.group)
  {
    if call == 0 && t == 12 then Created(MIDDLE)
    else if call == 1 && t == 5 then Created(CUT)
    else if call == 2 && t == 45 then Created(LATE)
    else Failed
  }

  /** Points at 12, 5, 45 and 20 make three groups on demand; the sorted list of them answers 20
      with the last group although the first is preferred. */
  lemma BatchLosesPreference()
    ensures var ps := [Point(12, 0, 0), Point(5, 0, 0), Point(45, 0, 0), Point(20, 0, 0)];
            && CreatesContaining(GroupsForExample)
            && CreatedOnDemand([MIDDLE, CUT, LATE], [0, 1, 2], ps, 0, WriteWindow(None, None), GroupsForExample)
            && Sorted([CUT, MIDDLE, LATE]) && Bounds([CUT, MIDDLE, LATE], 0, 50)
            && Lookup([CUT, MIDDLE, LATE], 0, 50, 20) == Some(LATE) && Preferred([CUT, MIDDLE, LATE], 20, CUT)
  {
    hide Lookup;
    TruncationBreaksPreference();
  }
}
