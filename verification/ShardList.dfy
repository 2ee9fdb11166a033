/** The shard-group list a write batch is routed through: `sgList` of
    coordinator/points_writer.go over `ShardGroupInfos` of services/meta/data.go. */
module ShardLists {
  import opened Optional

  /** Times are nanoseconds; ZERO_TIME is Go's zero time.Time, 1 January of year 1. */
  const ZERO_TIME: int := -62135596800_000000000

  datatype ShardGroup = ShardGroup(id: nat, start: int, end: int, truncatedAt: Option<int>, shards: seq<nat>)

  predicate Contains(g: ShardGroup, t: int) {
    g.start <= t < g.end
  }

  function EffectiveEnd(g: ShardGroup): int {
    if g.truncatedAt.Some? then g.truncatedAt.value else g.end
  }

  /** ShardGroupInfos.Less: a truncated group sorts by where it was truncated. */
  predicate Less(a: ShardGroup, b: ShardGroup) {
    if EffectiveEnd(a) == EffectiveEnd(b) then a.start < b.start else EffectiveEnd(a) < EffectiveEnd(b)
  }

  ghost predicate Sorted(gs: seq<ShardGroup>) {
    forall i, j :: 0 <= i < j < |gs| ==> !Less(gs[j], gs[i])
  }

  lemma InsertKeepsSorted(gs: seq<ShardGroup>, k: nat, g: ShardGroup)
    requires Sorted(gs) && k <= |gs|
    requires k == 0 || !Less(g, gs[k - 1])
    requires k == |gs| || Less(g, gs[k])
    ensures Sorted(gs[..k] + [g] + gs[k..])
  {
    forall j | 0 <= j < k ensures !Less(g, gs[j]) {
      assert j < k - 1 ==> !Less(gs[k - 1], gs[j]);
    }
    forall j | k <= j < |gs| ensures !Less(gs[j], g) {
      assert k < j ==> !Less(gs[j], gs[k]);
    }
  }

  method InsertGroup(gs: seq<ShardGroup>, g: ShardGroup) returns (r: seq<ShardGroup>)
    requires Sorted(gs)
    ensures Sorted(r) && multiset(r) == multiset(gs) + multiset{g}
  {
    var k := |gs|;
    while k > 0 && Less(g, gs[k - 1])
      invariant 0 <= k <= |gs|
      invariant k == |gs| || Less(g, gs[k])
    {
      k := k - 1;
    }
    InsertKeepsSorted(gs, k, g);
    r := gs[..k] + [g] + gs[k..];
    assert gs == gs[..k] + gs[k..];
  }

  /** What sort.Sort promises and no more: it is not stable. */
  method SortGroups(gs: seq<ShardGroup>) returns (r: seq<ShardGroup>)
    ensures multiset(r) == multiset(gs) && Sorted(r)
  {
    r := [];
    for n := 0 to |gs|
      invariant multiset(r) == multiset(gs[..n]) && Sorted(r)
    {
      assert gs[..n + 1] == gs[..n] + [gs[n]];
      r := InsertGroup(r, gs[n]);
    }
    assert gs[..|gs|] == gs;
  }

  // ---------- sort.Search and the lookup ----------

  /** The index sort.Search ends on when it looks for EndTime > t between i and j. */
  function SearchEnd(gs: seq<ShardGroup>, t: int, i: nat, j: nat): (r: nat)
    requires i <= j <= |gs|
    requires i == 0 || gs[i - 1].end <= t
    requires j == |gs| || t < gs[j].end
    ensures i <= r <= j
    ensures r == 0 || gs[r - 1].end <= t
    ensures r == |gs| || t < gs[r].end
    decreases j - i
  {
    if i == j then i
    else var h := (i + j) / 2;
         if t < gs[h].end then SearchEnd(gs, t, i, h) else SearchEnd(gs, t, h + 1, j)
  }

  lemma SearchStep(gs: seq<ShardGroup>, t: int, i: nat, j: nat)
    requires i < j <= |gs| && (i == 0 || gs[i - 1].end <= t) && (j == |gs| || t < gs[j].end)
    ensures var h := (i + j) / 2;
            i <= h < j && SearchEnd(gs, t, i, j) ==
              if t < gs[h].end then SearchEnd(gs, t, i, h) else SearchEnd(gs, t, h + 1, j)
  {
  }

  function FirstContaining(gs: seq<ShardGroup>, t: int, i: nat): (r: nat)
    requires i <= |gs|
    ensures i <= r <= |gs|
    ensures r < |gs| ==> Contains(gs[r], t)
    ensures forall k :: i <= k < r ==> !Contains(gs[k], t)
    decreases |gs| - i
  {
    if i == |gs| || Contains(gs[i], t) then i else FirstContaining(gs, t, i + 1)
  }

  function Lookup(gs: seq<ShardGroup>, earliest: int, latest: int, t: int): (r: Option<ShardGroup>) {
    var idx := SearchEnd(gs, t, 0, |gs|);
    if idx < |gs| && gs[idx].start <= t then Some(gs[idx])
    else if t < earliest || latest < t then None
    else var k := FirstContaining(gs, t, 0);
         if k == |gs| then None else Some(gs[k])
  }

  // ---------- what the lookup promises ----------

  ghost predicate Bounds(gs: seq<ShardGroup>, earliest: int, latest: int) {
    forall i :: 0 <= i < |gs| ==> earliest <= gs[i].start && gs[i].end <= latest
  }

  /** Nothing is returned exactly when no group contains t, and whatever is returned contains
      it. This does not need the list to be sorted, let alone free of overlaps. */
  lemma LookupFindsContaining(gs: seq<ShardGroup>, earliest: int, latest: int, t: int)
    requires Bounds(gs, earliest, latest)
    ensures Lookup(gs, earliest, latest, t).None? <==> forall g :: g in gs ==> !Contains(g, t)
    ensures var r := Lookup(gs, earliest, latest, t); r.Some? ==> r.value in gs && Contains(r.value, t)
  {
    var r := Lookup(gs, earliest, latest, t);
    if r.None? {
      forall g | g in gs ensures !Contains(g, t) {
        var k :| 0 <= k < |gs| && gs[k] == g;
        assert t < earliest || latest < t || FirstContaining(gs, t, 0) == |gs|;
      }
    } else {
      assert r.value in gs && Contains(r.value, t);
    }
  }

  /** a is before b in the documented order: it ends earlier, or ends together with b and does
      not start later. */
  predicate NotAfter(a: ShardGroup, b: ShardGroup) {
    a.end < b.end || (a.end == b.end && a.start <= b.start)
  }

  /** The group the documentation promises: it contains t, and of all groups that do it is the
      first in the documented order. */
  ghost predicate Preferred(gs: seq<ShardGroup>, t: int, g: ShardGroup) {
    g in gs && Contains(g, t) && forall h :: h in gs && Contains(h, t) ==> NotAfter(g, h)
  }

  predicate Untruncated(groups: multiset<ShardGroup>) {
    forall g :: g in groups ==> g.truncatedAt.None?
  }

  /** What CreateShardGroup and TruncateShardGroups make: a non-empty range, cut inside it if at
      all. */
  predicate Formed(g: ShardGroup) {
    g.start < g.end && g.start <= EffectiveEnd(g) <= g.end
  }

  predicate Overlap(g: ShardGroup, h: ShardGroup) {
    g.start < h.end && h.start < g.end
  }

  /** Where groups overlap, the sort order is the documented order. */
  predicate OrdersAgree(groups: multiset<ShardGroup>) {
    forall g, h :: g in groups && h in groups && Overlap(g, h) && !Less(h, g) ==> NotAfter(g, h)
  }

  /** The lists for which the documented preference is promised: groups as they are created and
      truncated whose overlaps sort as documented, and all lists without truncated groups. */
  predicate Orderly(groups: multiset<ShardGroup>) {
    Untruncated(groups) || ((forall g :: g in groups ==> Formed(g)) && OrdersAgree(groups))
  }

  /** A group that ends at or before t does not sort behind one that contains t. */
  lemma EndedSortsBefore(groups: multiset<ShardGroup>, g: ShardGroup, h: ShardGroup, t: int)
    requires Orderly(groups) && g in groups && h in groups && Contains(g, t) && h.end <= t
    ensures Less(h, g)
  {
  }

  lemma EndedBeforeSearch(gs: seq<ShardGroup>, t: int, k: nat)
    requires Sorted(gs) && Orderly(multiset(gs))
    requires k < SearchEnd(gs, t, 0, |gs|)
    ensures !Contains(gs[k], t)
  {
    hide SearchEnd, Orderly, Less;
    var last := SearchEnd(gs, t, 0, |gs|) - 1;
    assert gs[k] in multiset(gs) && gs[last] in multiset(gs);
    if Contains(gs[k], t) { EndedSortsBefore(multiset(gs), gs[k], gs[last], t); }
  }

  /** Whatever is found, every containing group stands behind it in the list. */
  lemma LookupReturnsSortFirst(gs: seq<ShardGroup>, earliest: int, latest: int, t: int, g: ShardGroup)
    requires Sorted(gs) && Orderly(multiset(gs))
    requires Lookup(gs, earliest, latest, t) == Some(g)
    ensures forall h :: h in gs && Contains(h, t) ==> !Less(h, g)
  {
    hide SearchEnd, FirstContaining, Orderly;
    var idx := SearchEnd(gs, t, 0, |gs|);
    var at := if idx < |gs| && gs[idx].start <= t then idx else FirstContaining(gs, t, 0);
    forall k | 0 <= k < at ensures !Contains(gs[k], t) {
      if at == idx { EndedBeforeSearch(gs, t, k); }
    }
  }

  lemma SortFirstIsPreferred(gs: seq<ShardGroup>, t: int, g: ShardGroup)
    requires Orderly(multiset(gs)) && g in gs && Contains(g, t)
    requires forall h :: h in gs && Contains(h, t) ==> !Less(h, g)
    ensures Preferred(gs, t, g)
  {
    forall h | h in gs && Contains(h, t) ensures NotAfter(g, h) {
      assert g in multiset(gs) && h in multiset(gs);
    }
  }

  ghost predicate Answers(gs: seq<ShardGroup>, t: int, r: Option<ShardGroup>) {
    match r
    case None => forall g :: g in gs ==> !Contains(g, t)
    case Some(g) => Preferred(gs, t, g)
  }

  /** Binary search, range shortcut and linear fallback together refine a plain scan for the
      preferred group, overlapping groups included. */
  lemma LookupRefinesScan(gs: seq<ShardGroup>, earliest: int, latest: int, t: int)
    requires Sorted(gs) && Bounds(gs, earliest, latest) && Orderly(multiset(gs))
    ensures Answers(gs, t, Lookup(gs, earliest, latest, t))
  {
    hide Lookup, Orderly, Less, Preferred;
    LookupFindsContaining(gs, earliest, latest, t);
    var r := Lookup(gs, earliest, latest, t);
    if r.Some? {
      LookupReturnsSortFirst(gs, earliest, latest, t, r.value);
      SortFirstIsPreferred(gs, t, r.value);
    }
  }

  // ---------- exactly when the documented preference holds ----------

  /** gs is a sorted list of some of the groups, within the bounds. */
  ghost predicate ListOf(gs: seq<ShardGroup>, groups: multiset<ShardGroup>, earliest: int, latest: int) {
    Sorted(gs) && Bounds(gs, earliest, latest) && forall g :: g in gs ==> g in groups
  }

  ghost predicate AlwaysAnswers(groups: multiset<ShardGroup>) {
    forall gs, earliest, latest, t | ListOf(gs, groups, earliest, latest) ::
      Answers(gs, t, Lookup(gs, earliest, latest, t))
  }

  /** Of two groups the one that sorts first is returned where they overlap. */
  lemma FirstOfTwo(g: ShardGroup, h: ShardGroup, earliest: int, latest: int, t: int)
    requires Contains(g, t) && Contains(h, t)
    ensures Lookup([g, h], earliest, latest, t) == Some(g)
  {
    assert SearchEnd([g, h], t, 0, 1) == SearchEnd([g, h], t, 0, 0) == 0;
  }

  lemma OverlapsMustAgree(groups: multiset<ShardGroup>, g: ShardGroup, h: ShardGroup)
    requires AlwaysAnswers(groups) && g in groups && h in groups && Formed(g) && Formed(h)
    requires Overlap(g, h) && !Less(h, g)
    ensures NotAfter(g, h)
  {
    hide Lookup, Less;
    var t := if g.start < h.start then h.start else g.start;
    var earliest := if g.start < h.start then g.start else h.start;
    var latest := if g.end < h.end then h.end else g.end;
    assert ListOf([g, h], groups, earliest, latest);
    FirstOfTwo(g, h, earliest, latest, t);
    assert Answers([g, h], t, Lookup([g, h], earliest, latest, t));
    assert h in [g, h];
  }

  /** For groups as they are created and truncated: every sorted list of them answers every time
      with the preferred group if and only if wherever two of them overlap the sort order is the
      documented order. */
  lemma PreferenceHoldsIff(groups: multiset<ShardGroup>)
    requires forall g :: g in groups ==> Formed(g)
    ensures AlwaysAnswers(groups) <==> OrdersAgree(groups)
  {
    hide Lookup, Less, NotAfter, Formed, Answers;
    if AlwaysAnswers(groups) {
      forall g, h | g in groups && h in groups && Overlap(g, h) && !Less(h, g) ensures NotAfter(g, h) {
        OverlapsMustAgree(groups, g, h);
      }
    }
    if OrdersAgree(groups) {
      forall gs, earliest, latest, t | ListOf(gs, groups, earliest, latest)
        ensures Answers(gs, t, Lookup(gs, earliest, latest, t))
      {
        SublistIsOrderly(gs, groups);
        LookupRefinesScan(gs, earliest, latest, t);
      }
    }
  }

  lemma SublistIsOrderly(gs: seq<ShardGroup>, groups: multiset<ShardGroup>)
    requires forall g :: g in gs ==> g in groups
    requires Orderly(groups)
    ensures Orderly(multiset(gs))
  {
    hide Less, NotAfter, Formed, Overlap;
    forall g | g in multiset(gs) ensures g in groups { assert g in gs; }
  }

  /** With a truncated group the preference can be lost, though not containment: sorting uses
      the truncation times, searching uses the end times, and the search steps over the group
      that both orders put first. */
  lemma TruncationBreaksPreference()
    ensures var a := ShardGroup(1, 0, 40, Some(10), [1]);
            var b := ShardGroup(2, 10, 15, None, [2]);
            var c := ShardGroup(3, 15, 50, None, [3]);
            && Formed(a) && Formed(b) && Formed(c) && Sorted([a, b, c]) && Bounds([a, b, c], 0, 50)
            && Lookup([a, b, c], 0, 50, 20) == Some(c) && Preferred([a, b, c], 20, a)
  {
    var a := ShardGroup(1, 0, 40, Some(10), [1]);
    var b := ShardGroup(2, 10, 15, None, [2]);
    var c := ShardGroup(3, 15, 50, None, [3]);
    var gs := [a, b, c];
    hide SearchEnd;
    SearchStep(gs, 20, 0, 3);
    SearchStep(gs, 20, 2, 3);
  }

  // ---------- the list object ----------

  method Search(gs: seq<ShardGroup>, t: int) returns (idx: nat)
    ensures idx == SearchEnd(gs, t, 0, |gs|)
  {
    hide SearchEnd;
    var i, j := 0, |gs|;
    ghost var found := SearchEnd(gs, t, i, j);
    while i < j
      invariant 0 <= i <= j <= |gs|
      invariant i == 0 || gs[i - 1].end <= t
      invariant j == |gs| || t < gs[j].end
      invariant SearchEnd(gs, t, i, j) == found
    {
      SearchStep(gs, t, i, j);
      var h := (i + j) / 2;
      if !(t < gs[h].end) { i := h + 1; } else { j := h; }
    }
    idx := i;
  }

  method LinearSearch(gs: seq<ShardGroup>, t: int) returns (idx: nat)
    ensures idx == FirstContaining(gs, t, 0)
  {
    idx := 0;
    ghost var found := FirstContaining(gs, t, 0);
    while idx < |gs| && !Contains(gs[idx], t)
      invariant idx <= |gs|
      invariant FirstContaining(gs, t, idx) == found
    {
      idx := idx + 1;
    }
  }

  method FindGroup(gs: seq<ShardGroup>, earliest: int, latest: int, t: int) returns (r: Option<ShardGroup>)
    ensures r == Lookup(gs, earliest, latest, t)
  {
    var idx := Search(gs, t);
    if idx == |gs| || t < gs[idx].start {
      if t < earliest || latest < t { return None; }
      idx := LinearSearch(gs, t);
      if idx == |gs| { return None; }
    }
    return Some(gs[idx]);
  }

  class SgList {
    var items: seq<ShardGroup>
    var needsSort: bool
    var earliest: int
    var latest: int

    ghost predicate Valid()
      reads this
    {
      && Bounds(items, earliest, latest)
      && (!needsSort ==> Sorted(items))
      && (items != [] ==> earliest != ZERO_TIME && latest != ZERO_TIME)
      && (items == [] ==> earliest == ZERO_TIME && latest == ZERO_TIME)
    }

    constructor ()
      ensures Valid() && items == []
    {
      items, needsSort, earliest, latest := [], false, ZERO_TIME, ZERO_TIME;
    }

    /** Zero start or end times read as "not set", so they are the caller's to avoid. */
    method Add(g: ShardGroup)
      requires Valid()
      requires g.start != ZERO_TIME && g.end != ZERO_TIME
      modifies this
      ensures Valid() && items == old(items) + [g]
    {
      items := items + [g];
      needsSort := true;
      if earliest == ZERO_TIME || earliest > g.start { earliest := g.start; }
      if latest == ZERO_TIME || latest < g.end { latest := g.end; }
    }

    /** The receiver is a copy of the list, so the sort reaches the shared items but the
        cleared needsSort flag does not outlive the call. */
    method ShardGroupAt(t: int) returns (r: Option<ShardGroup>)
      requires Valid()
      modifies this`items
      ensures Valid() && multiset(items) == multiset(old(items))
      ensures r.None? <==> forall g :: g in items ==> !Contains(g, t)
      ensures r.Some? ==> r.value in items && Contains(r.value, t)
      ensures r.Some? && Orderly(multiset(items)) ==> Preferred(items, t, r.value)
    {
      hide Orderly, Lookup, Less;
      if |items| == 0 { return None; }
      if needsSort {
        var sorted := SortGroups(items);
        BoundsOfPermutation(items, sorted, earliest, latest);
        items := sorted;
      }
      LookupFindsContaining(items, earliest, latest, t);
      if Orderly(multiset(items)) { LookupRefinesScan(items, earliest, latest, t); }
      r := FindGroup(items, earliest, latest, t);
    }

    method Covers(t: int) returns (b: bool)
      requires Valid()
      modifies this`items
      ensures Valid() && multiset(items) == multiset(old(items))
      ensures b <==> exists g :: g in items && Contains(g, t)
    {
      if |items| == 0 { return false; }
      var g := ShardGroupAt(t);
      return g.Some?;
    }
  }

  lemma BoundsOfPermutation(a: seq<ShardGroup>, b: seq<ShardGroup>, earliest: int, latest: int)
    requires Bounds(a, earliest, latest) && multiset(a) == multiset(b)
    ensures Bounds(b, earliest, latest)
    ensures |a| == |b| && forall g :: g in b <==> g in a
  {
    assert |a| == |multiset(a)| == |multiset(b)| == |b|;
    forall g ensures g in b <==> g in a {
      assert g in b <==> g in multiset(b);
      assert g in a <==> g in multiset(a);
    }
    forall i | 0 <= i < |b| ensures earliest <= b[i].start && b[i].end <= latest {
      assert b[i] in b;
      var k :| 0 <= k < |a| && a[k] == b[i];
    }
  }
}
