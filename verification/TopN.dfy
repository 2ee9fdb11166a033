/** top() and bottom(): a heap of the n best points, IntegerTopReducer and IntegerBottomReducer
    of query/functions.go with integerPointsByFunc of query/point.gen.go. */
module TopN {
  import opened Sequences

  datatype Kind = Top | Bottom

  datatype Pt = Pt(value: int, time: int)

  /** The cmp function: a is worse than b. Of equal values the later one is worse. */
  predicate Worse(kind: Kind, a: Pt, b: Pt) {
    if a.value != b.value then (if kind == Top then a.value < b.value else a.value > b.value)
    else a.time > b.time
  }

  // ---------- the reference: sort everything, take n ----------

  /** Best first. */
  predicate Ranked(kind: Kind, s: seq<Pt>) {
    forall i, j :: 0 <= i < j < |s| ==> !Worse(kind, s[i], s[j])
  }

  function Insert(kind: Kind, p: Pt, s: seq<Pt>): (r: seq<Pt>)
    ensures |r| == |s| + 1 && multiset(r) == multiset(s) + multiset{p}
  {
    if s == [] then [p]
    else if Worse(kind, s[0], p) then [p] + s
    else
      assert s == [s[0]] + s[1..];
      [s[0]] + Insert(kind, p, s[1..])
  }

  lemma RankedFirst(kind: Kind, x: Pt, s: seq<Pt>)
    requires Ranked(kind, s) && forall y :: y in s ==> !Worse(kind, x, y)
    ensures Ranked(kind, [x] + s)
  {
    hide Worse;
  }

  lemma NoneRanked(kind: Kind)
    ensures Ranked(kind, [])
  {
  }

  lemma {:induction false} InsertKeepsRanked(kind: Kind, p: Pt, s: seq<Pt>)
    requires Ranked(kind, s)
    ensures Ranked(kind, Insert(kind, p, s))
  {
    hide Ranked;
    if s == [] {
      NoneRanked(kind);
      RankedFirst(kind, p, []);
      assert [p] + [] == [p];
    } else {
      var rest := Insert(kind, p, s[1..]);
      RankedRest(kind, s, 0);
      InsertKeepsRanked(kind, p, s[1..]);
      if Worse(kind, s[0], p) {
        forall x | x in s ensures !Worse(kind, p, x) { FirstIsBest(kind, s, x); }
        RankedFirst(kind, p, s);
      } else {
        forall x | x in rest ensures !Worse(kind, s[0], x) {
          assert x in multiset(rest);
          if x != p {
            assert x in s[1..];
            FirstIsBest(kind, s, x);
          }
        }
        RankedFirst(kind, s[0], rest);
      }
    }
  }

  function Sorted(kind: Kind, s: seq<Pt>): (r: seq<Pt>)
    ensures |r| == |s| && multiset(r) == multiset(s)
  {
    if s == [] then []
    else
      assert s == s[..|s| - 1] + [s[|s| - 1]];
      Insert(kind, s[|s| - 1], Sorted(kind, s[..|s| - 1]))
  }

  lemma {:induction false} SortedIsRanked(kind: Kind, s: seq<Pt>)
    ensures Ranked(kind, Sorted(kind, s))
  {
    if s != [] {
      SortedIsRanked(kind, s[..|s| - 1]);
      InsertKeepsRanked(kind, s[|s| - 1], Sorted(kind, s[..|s| - 1]));
    }
  }

  /** The first n of all points sorted best first. */
  function Best(kind: Kind, s: seq<Pt>, n: nat): (r: seq<Pt>)
    ensures |r| == if |s| <= n then |s| else n
  {
    if |s| <= n then Sorted(kind, s) else Sorted(kind, s)[..n]
  }

  /** a is at least as high as b for top, as low as b for bottom; ties go to the earlier time. */
  predicate Beats(kind: Kind, a: Pt, b: Pt) {
    if a.value == b.value then a.time <= b.time
    else if kind == Top then a.value > b.value
    else a.value < b.value
  }

  /** The best come in order, and every one of them beats every point left out. */
  lemma BestAreBest(kind: Kind, s: seq<Pt>, n: nat)
    ensures var best := Best(kind, s, n); var rest := Sorted(kind, s)[|best|..];
            && multiset(best) + multiset(rest) == multiset(s)
            && (forall i, j :: 0 <= i < j < |best| ==> Beats(kind, best[i], best[j]))
            && (forall a, b :: a in best && b in rest ==> Beats(kind, a, b))
  {
    hide Sorted;
    SortedIsRanked(kind, s);
    var all, best := Sorted(kind, s), Best(kind, s, n);
    assert all == best + all[|best|..];
  }

  lemma BestIsRanked(kind: Kind, s: seq<Pt>, n: nat)
    ensures Ranked(kind, Best(kind, s, n))
  {
    hide Sorted, Worse;
    SortedIsRanked(kind, s);
  }

  lemma FirstIsBest(kind: Kind, a: seq<Pt>, x: Pt)
    ensures Ranked(kind, a) && x in a ==> !Worse(kind, a[0], x)
  {
  }

  lemma NeitherWorse(kind: Kind, a: Pt, b: Pt)
    ensures !Worse(kind, a, b) && !Worse(kind, b, a) ==> a == b
  {
  }

  /** Two ranked lists of the same points are equal. */
  lemma {:induction false} RankedIsUnique(kind: Kind, a: seq<Pt>, b: seq<Pt>)
    requires Ranked(kind, a) && Ranked(kind, b) && multiset(a) == multiset(b)
    ensures a == b
    decreases |a|
  {
    hide Ranked, Worse;
    SameLength(a, b);
    if a != [] {
      assert a[0] in multiset(b) && b[0] in multiset(a);
      FirstIsBest(kind, a, b[0]);
      FirstIsBest(kind, b, a[0]);
      NeitherWorse(kind, a[0], b[0]);
      WithoutFirst(a);
      WithoutFirst(b);
      RankedRest(kind, a, 0);
      RankedRest(kind, b, 0);
      RankedIsUnique(kind, a[1..], b[1..]);
      assert a == [a[0]] + a[1..] && b == [b[0]] + b[1..];
    }
  }

  lemma PrependTake(x: Pt, s: seq<Pt>, n: nat)
    ensures 1 <= n <= |s| + 1 ==> ([x] + s)[..n] == [x] + s[..n - 1]
  {
  }

  lemma RankedRest(kind: Kind, s: seq<Pt>, k: nat)
    requires Ranked(kind, s) && k < |s|
    ensures Ranked(kind, s[1..]) && (k > 0 ==> !Worse(kind, s[0], s[k]))
  {
    hide Worse;
  }

  /** A point that does not beat the n-th leaves the first n of a ranked list alone. */
  lemma {:induction false} InsertMisses(kind: Kind, p: Pt, s: seq<Pt>, n: nat)
    requires Ranked(kind, s) && 1 <= n <= |s| && !Worse(kind, s[n - 1], p)
    ensures Insert(kind, p, s)[..n] == s[..n]
  {
    hide Ranked;
    RankedRest(kind, s, n - 1);
    PrependTake(s[0], Insert(kind, p, s[1..]), n);
    PrependTake(s[0], s[1..], n);
    assert s == [s[0]] + s[1..];
    if n > 1 { InsertMisses(kind, p, s[1..], n - 1); }
  }

  /** A point that beats the n-th takes its place among the first n. */
  lemma {:induction false} InsertBeats(kind: Kind, p: Pt, s: seq<Pt>, n: nat)
    requires 1 <= n <= |s| && Worse(kind, s[n - 1], p)
    ensures Insert(kind, p, s)[..n] == Insert(kind, p, s[..n - 1])
  {
    hide Worse;
    if Worse(kind, s[0], p) {
      PrependTake(p, s, n);
    } else {
      PrependTake(s[0], Insert(kind, p, s[1..]), n);
      InsertBeats(kind, p, s[1..], n - 1);
      assert s[1..][..n - 2] == s[..n - 1][1..];
    }
  }

  // ---------- the heap ----------

  function Parent(k: int): (p: int)
    requires k > 0
    ensures 0 <= p < k
  {
    (k - 1) / 2
  }

  predicate InOrder(kind: Kind, s: seq<Pt>, k: int)
    requires 0 < k < |s|
  {
    !Worse(kind, s[k], s[Parent(k)])
  }

  predicate Heap(kind: Kind, s: seq<Pt>) {
    forall k :: 0 < k < |s| ==> InOrder(kind, s, k)
  }

  /** The root is the worst point of a heap. */
  lemma {:induction false} RootIsWorst(kind: Kind, s: seq<Pt>, k: nat)
    requires Heap(kind, s) && k < |s|
    ensures !Worse(kind, s[k], s[0])
  {
    if k > 0 {
      RootIsWorst(kind, s, Parent(k));
      assert InOrder(kind, s, k);
    }
  }

  function Swap(s: seq<Pt>, i: int, j: int): (r: seq<Pt>)
    requires 0 <= i < |s| && 0 <= j < |s|
    ensures |r| == |s| && multiset(r) == multiset(s)
  {
    s[i := s[j]][j := s[i]]
  }

  /** Every point but j is in order, and j's children are in order with j's parent. */
  predicate HeapAbove(kind: Kind, s: seq<Pt>, j: int) {
    && (forall k :: 0 < k < |s| && k != j ==> InOrder(kind, s, k))
    && (j > 0 ==> forall k :: 0 < k < |s| && Parent(k) == j && Parent(k) < |s| ==> !Worse(kind, s[k], s[Parent(j)]))
  }

  lemma UpStep(kind: Kind, s: seq<Pt>, j: int)
    requires 0 < j < |s| && HeapAbove(kind, s, j) && Worse(kind, s[j], s[Parent(j)])
    ensures HeapAbove(kind, Swap(s, Parent(j), j), Parent(j))
  {
    var i, t := Parent(j), Swap(s, Parent(j), j);
    forall k | 0 < k < |t| && k != i ensures InOrder(kind, t, k) {
      assert k != j ==> InOrder(kind, s, k);
    }
    if i > 0 {
      assert InOrder(kind, s, i);
      forall k | 0 < k < |t| && Parent(k) == i ensures !Worse(kind, t[k], t[Parent(i)]) {
        assert k != j ==> InOrder(kind, s, k);
      }
    }
  }

  /** up of container/heap. */
  method Up(kind: Kind, s: seq<Pt>, start: nat) returns (r: seq<Pt>)
    requires start < |s| && HeapAbove(kind, s, start)
    ensures Heap(kind, r) && multiset(r) == multiset(s) && |r| == |s|
  {
    hide Worse, InOrder, HeapAbove, Swap;
    r := s;
    var j := start;
    while true
      invariant 0 <= j < |r| == |s| && HeapAbove(kind, r, j) && multiset(r) == multiset(s)
      decreases j
    {
      var i := if j == 0 then 0 else Parent(j);
      if i == j || !Worse(kind, r[j], r[i]) {
        HeapAtLast(kind, r, j);
        return;
      }
      UpStep(kind, r, j);
      r := Swap(r, i, j);
      j := i;
    }
  }

  lemma HeapAtLast(kind: Kind, s: seq<Pt>, j: int)
    requires 0 <= j < |s| && HeapAbove(kind, s, j) && (j > 0 ==> !Worse(kind, s[j], s[Parent(j)]))
    ensures Heap(kind, s)
  {
    hide Worse;
    assert forall k :: 0 < k < |s| && k != j ==> InOrder(kind, s, k);
    assert j > 0 ==> InOrder(kind, s, j);
  }

  /** Every point but i's children is in order, and i's children are in order with i's parent. */
  predicate HeapBelow(kind: Kind, s: seq<Pt>, i: int) {
    && (forall k :: 0 < k < |s| && Parent(k) != i ==> InOrder(kind, s, k))
    && (i > 0 ==> forall k :: 0 < k < |s| && Parent(k) == i && Parent(k) < |s| ==> !Worse(kind, s[k], s[Parent(i)]))
  }

  /** j is the worse child of i. */
  predicate WorseChild(kind: Kind, s: seq<Pt>, i: int, j: int)
    requires 0 < j < |s|
  {
    Parent(j) == i && forall k :: 0 < k < |s| && Parent(k) == i ==> !Worse(kind, s[k], s[j])
  }

  lemma DownStep(kind: Kind, s: seq<Pt>, i: int, j: int)
    requires 0 <= i < j < |s| && HeapBelow(kind, s, i) && WorseChild(kind, s, i, j) && Worse(kind, s[j], s[i])
    ensures HeapBelow(kind, Swap(s, i, j), j)
  {
    var t := Swap(s, i, j);
    forall k | 0 < k < |t| && Parent(k) != j ensures InOrder(kind, t, k) {
      assert Parent(k) != i ==> InOrder(kind, s, k);
    }
    forall k | 0 < k < |t| && Parent(k) == j ensures !Worse(kind, t[k], t[Parent(j)]) {
      assert InOrder(kind, s, k);
    }
  }

  lemma DownStops(kind: Kind, s: seq<Pt>, i: int, j: int)
    requires 0 <= i < j < |s| && HeapBelow(kind, s, i) && WorseChild(kind, s, i, j) && !Worse(kind, s[j], s[i])
    ensures Heap(kind, s)
  {
    forall k | 0 < k < |s| ensures InOrder(kind, s, k) {
      assert Parent(k) != i ==> InOrder(kind, s, k);
    }
  }

  lemma LeafStops(kind: Kind, s: seq<Pt>, i: int)
    requires 0 <= i < |s| && HeapBelow(kind, s, i) && 2 * i + 1 >= |s|
    ensures Heap(kind, s)
  {
    hide Worse, InOrder;
    forall k | 0 < k < |s| ensures InOrder(kind, s, k) {
      assert Parent(k) != i;
    }
  }

  /** down of container/heap, which is all that Fix does at the root. */
  method Down(kind: Kind, s: seq<Pt>, start: nat) returns (r: seq<Pt>)
    requires start < |s| && HeapBelow(kind, s, start)
    ensures Heap(kind, r) && multiset(r) == multiset(s) && |r| == |s|
  {
    hide Worse, InOrder, HeapBelow, Swap, WorseChild, Heap;
    r := s;
    var i := start;
    while true
      invariant 0 <= i < |r| == |s| && HeapBelow(kind, r, i) && multiset(r) == multiset(s)
      decreases |r| - i
    {
      if 2 * i + 1 >= |r| {
        LeafStops(kind, r, i);
        return;
      }
      var j := 2 * i + 1;
      if j + 1 < |r| && Worse(kind, r[j + 1], r[j]) { j := j + 1; }
      ChildIsWorse(kind, r, i, j);
      if !Worse(kind, r[j], r[i]) {
        DownStops(kind, r, i, j);
        return;
      }
      DownStep(kind, r, i, j);
      r := Swap(r, i, j);
      i := j;
    }
  }

  lemma ChildIsWorse(kind: Kind, s: seq<Pt>, i: int, j: int)
    requires 0 <= i && 2 * i + 1 < |s| && (j == 2 * i + 1 || j == 2 * i + 2) && j < |s|
    requires j == 2 * i + 2 <==> 2 * i + 2 < |s| && Worse(kind, s[2 * i + 2], s[2 * i + 1])
    ensures WorseChild(kind, s, i, j)
  {
    forall k | 0 < k < |s| && Parent(k) == i ensures !Worse(kind, s[k], s[j]) {
      assert k == 2 * i + 1 || k == 2 * i + 2;
    }
  }

  // ---------- the reducer ----------

  lemma PushedIsHeapAbove(kind: Kind, s: seq<Pt>, p: Pt)
    requires Heap(kind, s)
    ensures HeapAbove(kind, s + [p], |s|)
  {
    hide Worse;
    var t := s + [p];
    forall k | 0 < k < |t| && k != |s| ensures InOrder(kind, t, k) {
      assert InOrder(kind, s, k);
    }
  }

  lemma ReplacedIsHeapBelow(kind: Kind, s: seq<Pt>, p: Pt)
    requires Heap(kind, s) && s != []
    ensures HeapBelow(kind, s[0 := p], 0)
  {
    hide Worse;
    var t := s[0 := p];
    forall k | 0 < k < |t| && Parent(k) != 0 ensures InOrder(kind, t, k) {
      assert InOrder(kind, s, k);
    }
  }

  /** The points kept of those seen: a heap of the n best. */
  predicate Keeps(kind: Kind, n: nat, points: seq<Pt>, seen: seq<Pt>) {
    Heap(kind, points) && multiset(points) == multiset(Best(kind, seen, n))
  }

  lemma KeptCount(kind: Kind, n: nat, points: seq<Pt>, seen: seq<Pt>)
    requires Keeps(kind, n, points, seen)
    ensures |points| == if |seen| <= n then |seen| else n
  {
    assert |multiset(points)| == |points|;
    assert |multiset(Best(kind, seen, n))| == |Best(kind, seen, n)|;
  }

  /** The root of a full heap is the n-th of the sorted points. */
  lemma RootIsNth(kind: Kind, n: nat, points: seq<Pt>, seen: seq<Pt>)
    requires Keeps(kind, n, points, seen) && 1 <= n <= |seen|
    ensures |points| == n && points[0] == Sorted(kind, seen)[n - 1]
  {
    hide Sorted, Heap;
    KeptCount(kind, n, points, seen);
    SortedIsRanked(kind, seen);
    var best := Best(kind, seen, n);
    assert best == Sorted(kind, seen)[..n];
    assert best[n - 1] in multiset(points) && points[0] in multiset(best);
    var k :| 0 <= k < |points| && points[k] == best[n - 1];
    var j :| 0 <= j < |best| && best[j] == points[0];
    RootIsWorst(kind, points, k);
    assert j < n - 1 ==> !Worse(kind, best[j], best[n - 1]);
  }

  lemma SortedOfOneMore(kind: Kind, seen: seq<Pt>, p: Pt)
    ensures Sorted(kind, seen + [p]) == Insert(kind, p, Sorted(kind, seen))
  {
    assert (seen + [p])[..|seen|] == seen;
  }

  /** What becomes of the best when one more point is seen. */
  lemma BestOfOneMore(kind: Kind, n: nat, seen: seq<Pt>, p: Pt)
    requires n >= 1
    ensures var best, next := Best(kind, seen, n), Best(kind, seen + [p], n);
            if |seen| < n then multiset(next) == multiset(best) + multiset{p}
            else if Worse(kind, Sorted(kind, seen)[n - 1], p) then
              multiset(next) == multiset(best) - multiset{Sorted(kind, seen)[n - 1]} + multiset{p}
            else multiset(next) == multiset(best)
  {
    hide Insert, Sorted, Worse;
    SortedOfOneMore(kind, seen, p);
    SortedIsRanked(kind, seen);
    var s := Sorted(kind, seen);
    if |seen| >= n {
      if Worse(kind, s[n - 1], p) { InsertBeats(kind, p, s, n); } else { InsertMisses(kind, p, s, n); }
      assert s[..n] == s[..n - 1] + [s[n - 1]];
      assert Best(kind, seen, n) == s[..n];
    }
  }

  lemma KeptIsHeap(kind: Kind, n: nat, points: seq<Pt>, seen: seq<Pt>)
    ensures Keeps(kind, n, points, seen) ==> Heap(kind, points)
  {
  }

  /** After one more point the n best are kept: all of them while there is room, else the new
      point in place of the root if it beats the root. */
  lemma KeepsOneMore(kind: Kind, n: nat, was: seq<Pt>, now: seq<Pt>, seen: seq<Pt>, p: Pt)
    requires n >= 1 && Keeps(kind, n, was, seen) && Heap(kind, now)
    requires if |was| == n then multiset(now) == multiset(if Worse(kind, was[0], p) then was[0 := p] else was)
             else multiset(now) == multiset(was + [p])
    ensures Keeps(kind, n, now, seen + [p])
  {
    hide Heap, Worse, Best, Sorted;
    KeptCount(kind, n, was, seen);
    BestOfOneMore(kind, n, seen, p);
    if |was| == n { RootIsNth(kind, n, was, seen); }
  }

  class Reducer {
    const kind: Kind
    const n: nat
    var points: seq<Pt>
    ghost var seen: seq<Pt>

    ghost predicate Valid()
      reads this
    {
      n >= 1 && Keeps(kind, n, points, seen)
    }

    constructor (kind: Kind, n: nat)
      requires n >= 1
      ensures Valid() && seen == [] && this.kind == kind && this.n == n
    {
      this.kind, this.n := kind, n;
      points, seen := [], [];
    }

    /** AggregateInteger */
    method Aggregate(p: Pt)
      requires Valid()
      modifies this
      ensures Valid() && seen == old(seen) + [p]
    {
      hide Heap, Worse, Best, Keeps;
      KeptCount(kind, n, points, seen);
      ghost var was := points;
      if |points| == n {
        RootIsNth(kind, n, points, seen);
        if Worse(kind, points[0], p) {
          KeptIsHeap(kind, n, points, seen);
          ReplacedIsHeapBelow(kind, points, p);
          points := Down(kind, points[0 := p], 0);
        } else {
          KeptIsHeap(kind, n, points, seen);
        }
      } else {
        KeptIsHeap(kind, n, points, seen);
        PushedIsHeapAbove(kind, points, p);
        points := Up(kind, points + [p], |points|);
      }
      KeepsOneMore(kind, n, was, points, seen, p);
      seen := seen + [p];
    }

    /** The kept points, best first; the heap is left as it is. */
    method Emit() returns (out: seq<Pt>)
      requires Valid()
      ensures out == Best(kind, seen, n)
    {
      hide Heap, Sorted;
      out := Sorted(kind, points);
      SortedIsRanked(kind, points);
      BestIsRanked(kind, seen, n);
      RankedIsUnique(kind, out, Best(kind, seen, n));
    }
  }

  /** A whole stream through one reducer. */
  method Select(kind: Kind, n: nat, input: seq<Pt>) returns (out: seq<Pt>)
    requires n >= 1
    ensures out == Best(kind, input, n)
  {
    hide Best, Keeps;
    var r := new Reducer(kind, n);
    for i := 0 to |input|
      invariant fresh(r) && r.Valid() && r.kind == kind && r.n == n && r.seen == input[..i]
    {
      r.Aggregate(input[i]);
      assert input[..i + 1] == input[..i] + [input[i]];
    }
    assert input[..|input|] == input;
    out := r.Emit();
  }
}
