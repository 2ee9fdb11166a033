/** What each value emitted by the integral stands for, in ascending and in descending order. */
module IntegralWindows {
  import opened Optional
  import opened Int64
  import opened Windows
  import opened Integrals

  // ---------- the input ----------

  /** In the direction of the scan, x is at y or past it. */
  predicate AtOrPast(c: Config, x: int, y: int) {
    if c.ascending then x >= y else x <= y
  }

  /** Grouped by time, at times that lie in their own windows and come in the order of the scan;
      equal times may follow one another. */
  predicate Series(c: Config, pts: seq<Pt>) {
    && WellConfig(c) && Grouped(c.opt) && pts != []
    && (forall i :: 0 <= i < |pts| ==> Bounded(c.opt, pts[i].time))
    && (forall i, j :: 0 <= i < j < |pts| ==> AtOrPast(c, pts[j].time, pts[i].time))
  }

  /** The window of point i begins where the window of the point before ends, or is the same. */
  predicate NextWindow(c: Config, pts: seq<Pt>, i: int)
    requires Series(c, pts) && 0 < i < |pts|
  {
    AtOrPast(c, Bounds(c, pts[i - 1].time).1, Bounds(c, pts[i].time).0)
  }

  predicate NoEmptyWindow(c: Config, pts: seq<Pt>)
    requires Series(c, pts)
  {
    forall i :: 0 < i < |pts| ==> NextWindow(c, pts, i)
  }

  lemma SeriesPrefix(c: Config, pts: seq<Pt>)
    requires Series(c, pts) && |pts| > 1
    ensures Series(c, pts[..|pts| - 1])
    ensures NoEmptyWindow(c, pts) ==> NoEmptyWindow(c, pts[..|pts| - 1]) && NextWindow(c, pts, |pts| - 1)
  {
    hide Bounds, Bounded, AtOrPast;
    var init := pts[..|pts| - 1];
    if NoEmptyWindow(c, pts) {
      forall i | 0 < i < |init| ensures NextWindow(c, init, i) {
        assert NextWindow(c, pts, i);
      }
    }
  }

  // ---------- windows in the direction of the scan ----------

  /** Where a window that is passed from start on ends: in ascending order start is its first time,
      in descending order the time behind its last. A clipped window ends at the time limit. */
  function EndFrom(c: Config, start: int): (end: int)
    requires Grouped(c.opt)
  {
    if c.ascending then Upper(c.opt, start) else Lower(c.opt, start - 1)
  }

  lemma BoundsHold(c: Config, t: int64)
    requires WellConfig(c) && Grouped(c.opt) && Bounded(c.opt, t)
    ensures var (start, end) := Bounds(c, t);
            && end == EndFrom(c, start) && AtOrPast(c, t, start) && AtOrPast(c, end, t)
            && (if c.ascending then t != end else t != start)
  {
    hide Window, Bounded, StartOf, Number;
    BoundedWindow(c.opt, t);
    Apart(c.opt, Lower(c.opt, t), t);
    Apart(c.opt, Upper(c.opt, t) - 1, t);
    StartIsBefore(c.opt, t);
  }

  /** Another time has the same bounds while it has not passed them, and also on the lower bound
      itself, which belongs to the window. */
  lemma SameBounds(c: Config, t: int64, p: int64)
    requires WellConfig(c) && Grouped(c.opt) && Bounded(c.opt, t) && Bounded(c.opt, p)
    requires AtOrPast(c, p, t) && t != p
    ensures var (start, end) := Bounds(c, t);
            && (!Passed(c, end, p) ==> Bounds(c, p) == (start, end))
            && (Passed(c, end, p) && (c.ascending || p != end) ==> AtOrPast(c, Bounds(c, p).0, end))
            && (!c.ascending && p == end ==> Bounds(c, p) == (start, end))
            && (Bounds(c, p).0 == start ==> !Passed(c, end, p) || (!c.ascending && p == end))
  {
    hide Window, Bounded, StartOf, Number;
    BoundedWindow(c.opt, t);
    BoundedWindow(c.opt, p);
    StartIsBefore(c.opt, t);
    Apart(c.opt, p, t);
  }

  // ---------- the curve ----------

  /** The area under the curve from its first point up to time x. */
  function AreaUpTo(c: Config, pts: seq<Pt>, x: int): (area: real)
    requires WellConfig(c)
  {
    if |pts| <= 1 then 0.0
    else
      var init, a, b := pts[..|pts| - 1], pts[|pts| - 2], pts[|pts| - 1];
      if AtOrPast(c, x, b.time) then Area(c, pts)
      else if AtOrPast(c, a.time, x) then AreaUpTo(c, init, x)
      else Area(c, init) + Trapezium(c, a, Pt(x, Linear(x, a, b)))
  }

  lemma OnePointHasNoArea(c: Config, pts: seq<Pt>, x: int)
    requires WellConfig(c) && |pts| == 1
    ensures AreaUpTo(c, pts, x) == 0.0
  {
  }

  lemma UpToLast(c: Config, pts: seq<Pt>, x: int)
    requires Series(c, pts) && AtOrPast(c, x, pts[|pts| - 1].time)
    ensures AreaUpTo(c, pts, x) == Area(c, pts)
  {
    hide Trapezium, Linear, Bounded;
  }

  /** Another point does not change the area up to the point before. */
  lemma OldAreaKept(c: Config, pts: seq<Pt>, x: int)
    requires Series(c, pts) && |pts| > 1 && AtOrPast(c, pts[|pts| - 2].time, x)
    ensures AreaUpTo(c, pts, x) == AreaUpTo(c, pts[..|pts| - 1], x)
  {
    hide Trapezium, Linear, Bounded;
    if AtOrPast(c, x, pts[|pts| - 1].time) {
      ZeroWidth(c, pts[|pts| - 2], pts[|pts| - 1]);
      SeriesPrefix(c, pts);
      UpToLast(c, pts[..|pts| - 1], x);
    }
  }

  lemma {:induction false} NothingBeforeFirst(c: Config, pts: seq<Pt>, x: int)
    requires Series(c, pts) && AtOrPast(c, pts[0].time, x)
    ensures AreaUpTo(c, pts, x) == 0.0
  {
    hide AreaUpTo, Bounded, Bounds;
    if |pts| == 1 {
      OnePointHasNoArea(c, pts, x);
    } else {
      SeriesPrefix(c, pts);
      assert |pts| > 2 ==> AtOrPast(c, pts[|pts| - 2].time, pts[0].time);
      OldAreaKept(c, pts, x);
      NothingBeforeFirst(c, pts[..|pts| - 1], x);
    }
  }

  // ---------- the tiling ----------

  /** Where the area of the k-th emitted value begins: at the end of the window emitted before,
      or at the first point. */
  function Begin(c: Config, pts: seq<Pt>, out: seq<Pt>, k: nat): (x: int)
    requires Grouped(c.opt) && pts != [] && k <= |out|
  {
    if k == 0 then pts[0].time else EndFrom(c, out[k - 1].time)
  }

  predicate Tile(c: Config, pts: seq<Pt>, out: seq<Pt>, k: nat)
    requires WellConfig(c) && Grouped(c.opt) && pts != [] && k < |out|
  {
    out[k].value == AreaUpTo(c, pts, EndFrom(c, out[k].time)) - AreaUpTo(c, pts, Begin(c, pts, out, k))
  }

  predicate Tiled(c: Config, pts: seq<Pt>, out: seq<Pt>)
    requires WellConfig(c) && Grouped(c.opt) && pts != []
  {
    forall k :: 0 <= k < |out| ==> Tile(c, pts, out, k)
  }

  /** The scan at time x has passed the end of every emitted window. */
  predicate Ended(c: Config, out: seq<Pt>, x: int)
    requires Grouped(c.opt)
  {
    forall k :: 0 <= k < |out| ==> AtOrPast(c, x, EndFrom(c, out[k].time))
  }

  predicate Holds(c: Config, pts: seq<Pt>, s: State, out: seq<Pt>)
    requires WellConfig(c) && Grouped(c.opt) && pts != []
  {
    var last := pts[|pts| - 1];
    && s.prev == Some(last) && (s.start, s.end) == Bounds(c, last.time)
    && Tiled(c, pts, out) && Ended(c, out, last.time) && AtOrPast(c, last.time, Begin(c, pts, out, |out|))
    && s.sum == Area(c, pts) - AreaUpTo(c, pts, Begin(c, pts, out, |out|))
  }

  lemma TilesKept(c: Config, pts: seq<Pt>, out: seq<Pt>)
    requires Series(c, pts) && |pts| > 1
    requires Tiled(c, pts[..|pts| - 1], out) && Ended(c, out, pts[|pts| - 2].time)
    ensures Tiled(c, pts, out)
  {
    hide AreaUpTo, Bounded, EndFrom;
    var init := pts[..|pts| - 1];
    forall k | 0 <= k < |out| ensures Tile(c, pts, out, k) {
      assert Tile(c, init, out, k);
      assert Begin(c, pts, out, k) == Begin(c, init, out, k);
      assert |pts| > 2 ==> AtOrPast(c, pts[|pts| - 2].time, pts[0].time);
      OldAreaKept(c, pts, EndFrom(c, out[k].time));
      OldAreaKept(c, pts, Begin(c, pts, out, k));
    }
  }

  /** p puts something into the channel. */
  predicate Moves(c: Config, s: State, p: Pt) {
    s.prev.Some? && s.prev.value.time != p.time && Passed(c, s.end, p.time)
  }

  /** A point in the current window, or at the time of the one before, only adds to the sum. */
  lemma SameWindow(c: Config, pts: seq<Pt>, s: State, out: seq<Pt>)
    requires Series(c, pts) && |pts| > 1 && Holds(c, pts[..|pts| - 1], s, out)
    requires !Moves(c, s, pts[|pts| - 1])
    ensures var (s', more) := Next(c, s, pts[|pts| - 1]);
            more == [] && Holds(c, pts, s', out)
  {
    hide Trapezium, Linear, AreaUpTo, Bounds, Tiled, Bounded, EndFrom, Passed;
    var a, p := pts[|pts| - 2], pts[|pts| - 1];
    if a.time == p.time { ZeroWidth(c, a, p); } else { SameBounds(c, a.time, p.time); }
    TilesKept(c, pts, out);
    OldAreaKept(c, pts, Begin(c, pts, out, |out|));
  }

  /** What is left of the last segment is cut at the end of the window. */
  lemma CutAtEnd(c: Config, pts: seq<Pt>, x: int64)
    requires Series(c, pts) && |pts| > 1 && pts[|pts| - 2].time != pts[|pts| - 1].time
    requires AtOrPast(c, x, pts[|pts| - 2].time) && AtOrPast(c, pts[|pts| - 1].time, x)
    ensures var a, p := pts[|pts| - 2], pts[|pts| - 1];
            var mid := if a.time != x then Pt(x, Linear(x, a, p)) else a;
            && AreaUpTo(c, pts, x) == Area(c, pts[..|pts| - 1]) + (if a.time != x then Trapezium(c, a, mid) else 0.0)
            && Area(c, pts) == AreaUpTo(c, pts, x) + Trapezium(c, mid, p)
  {
    hide Trapezium, Linear, Bounded;
    var init, a, p := pts[..|pts| - 1], pts[|pts| - 2], pts[|pts| - 1];
    SeriesPrefix(c, pts);
    if a.time == x {
      OldAreaKept(c, pts, x);
      UpToLast(c, init, x);
    } else {
      CutKeepsArea(c, a, p, x);
      if x == p.time { ZeroWidth(c, Pt(x, Linear(x, a, p)), p); }
    }
  }

  /** A point past the window emits the area up to the window's end and keeps the rest. */
  lemma PastWindow(c: Config, pts: seq<Pt>, s: State, out: seq<Pt>)
    requires Series(c, pts) && |pts| > 1 && Holds(c, pts[..|pts| - 1], s, out)
    requires Moves(c, s, pts[|pts| - 1])
    ensures var (s', more) := Next(c, s, pts[|pts| - 1]);
            && |more| == 1 && more[0].time == s.start && EndFrom(c, s.start) == s.end
            && more[0].value == AreaUpTo(c, pts, s.end) - AreaUpTo(c, pts, Begin(c, pts, out, |out|))
            && s'.sum == Area(c, pts) - AreaUpTo(c, pts, s.end)
            && s'.prev == Some(pts[|pts| - 1]) && (s'.start, s'.end) == Bounds(c, pts[|pts| - 1].time)
  {
    hide Trapezium, Linear, Bounds, Tiled, Ended, Bounded, AreaUpTo, Area, EndFrom;
    var a := pts[|pts| - 2];
    BoundsHold(c, a.time);
    CutAtEnd(c, pts, s.end);
    OldAreaKept(c, pts, Begin(c, pts, out, |out|));
  }

  /** What a state that holds says about the windows emitted so far. */
  lemma HoldsParts(c: Config, pts: seq<Pt>, s: State, out: seq<Pt>)
    requires Series(c, pts) && Holds(c, pts, s, out)
    ensures var last := pts[|pts| - 1];
            && (s.start, s.end) == Bounds(c, last.time) && EndFrom(c, s.start) == s.end
            && AtOrPast(c, last.time, s.start) && AtOrPast(c, s.end, last.time)
            && Tiled(c, pts, out) && Ended(c, out, last.time)
  {
    hide AreaUpTo, Bounds, Tiled, Ended, EndFrom;
    BoundsHold(c, pts[|pts| - 1].time);
  }

  lemma HoldsPrevious(c: Config, pts: seq<Pt>, s: State, out: seq<Pt>)
    requires Series(c, pts) && Holds(c, pts, s, out)
    ensures s.prev == Some(pts[|pts| - 1])
  {
  }

  lemma HoldsFrom(c: Config, pts: seq<Pt>, s: State, out: seq<Pt>)
    requires Series(c, pts) && s.prev == Some(pts[|pts| - 1])
    requires (s.start, s.end) == Bounds(c, pts[|pts| - 1].time)
    requires Tiled(c, pts, out) && Ended(c, out, pts[|pts| - 1].time)
    requires AtOrPast(c, pts[|pts| - 1].time, Begin(c, pts, out, |out|))
    requires s.sum == Area(c, pts) - AreaUpTo(c, pts, Begin(c, pts, out, |out|))
    ensures Holds(c, pts, s, out)
  {
  }

  lemma PastWindowHolds(c: Config, pts: seq<Pt>, s: State, out: seq<Pt>)
    requires Series(c, pts) && |pts| > 1 && Holds(c, pts[..|pts| - 1], s, out)
    requires Moves(c, s, pts[|pts| - 1])
    ensures var (s', more) := Next(c, s, pts[|pts| - 1]);
            Holds(c, pts, s', out + more)
  {
    hide AreaUpTo, Area, Next, Bounds, Holds, EndFrom, Bounded;
    var a, p := pts[|pts| - 2], pts[|pts| - 1];
    SeriesPrefix(c, pts);
    HoldsParts(c, pts[..|pts| - 1], s, out);
    PastWindow(c, pts, s, out);
    TilesKept(c, pts, out);
    var (s', more) := Next(c, s, p);
    var all := out + more;
    forall k | 0 <= k < |all| ensures Tile(c, pts, all, k) {
      assert k < |out| ==> Tile(c, pts, out, k);
    }
    HoldsFrom(c, pts, s', all);
  }

  lemma {:induction false} RunHolds(c: Config, pts: seq<Pt>)
    requires Series(c, pts)
    ensures Holds(c, pts, Run(c, pts).0, Run(c, pts).1)
  {
    hide Holds, Next, Bounds;
    var init, p := pts[..|pts| - 1], pts[|pts| - 1];
    if init == [] {
      FirstHolds(c, pts);
      FirstRun(c, pts);
    } else {
      SeriesPrefix(c, pts);
      RunHolds(c, init);
      var (s, out) := Run(c, init);
      if Moves(c, s, p) {
        PastWindowHolds(c, pts, s, out);
      } else {
        SameWindow(c, pts, s, out);
        assert out + [] == out;
      }
    }
  }

  lemma FirstRun(c: Config, pts: seq<Pt>)
    requires WellConfig(c) && |pts| == 1
    ensures Run(c, pts) == (Next(c, FRESH, pts[0]).0, Next(c, FRESH, pts[0]).1)
  {
    hide Next, Bounds;
    assert Run(c, pts[..0]) == (FRESH, []);
    assert [] + Next(c, FRESH, pts[0]).1 == Next(c, FRESH, pts[0]).1;
  }

  lemma FirstHolds(c: Config, pts: seq<Pt>)
    requires Series(c, pts) && |pts| == 1
    ensures Holds(c, pts, Next(c, FRESH, pts[0]).0, []) && Next(c, FRESH, pts[0]).1 == []
  {
    hide Bounds;
  }

  lemma LastTile(c: Config, pts: seq<Pt>, s: State, out: seq<Pt>)
    requires Series(c, pts) && Holds(c, pts, s, out)
    ensures s.sum == AreaUpTo(c, pts, EndFrom(c, s.start)) - AreaUpTo(c, pts, Begin(c, pts, out, |out|))
  {
    hide Bounds, Tiled, Ended, AreaUpTo, EndFrom;
    BoundsHold(c, pts[|pts| - 1].time);
    UpToLast(c, pts, s.end);
  }

  /** Every emitted value is the area between the end of the window emitted before it and the
      end of its own window, in both directions. */
  lemma EmissionsTile(c: Config, pts: seq<Pt>)
    requires Series(c, pts)
    ensures Tiled(c, pts, Emitted(c, pts))
  {
    hide Holds, Run, AreaUpTo, Bounds, EndFrom;
    RunHolds(c, pts);
    var (s, out) := Run(c, pts);
    HoldsParts(c, pts, s, out);
    var all := Emitted(c, pts);
    forall k | 0 <= k < |all| ensures Tile(c, pts, all, k) {
      if k < |out| { assert Tile(c, pts, out, k); } else { LastTile(c, pts, s, out); }
    }
  }

  // ---------- no empty windows ----------

  /** The k-th value has the window of the value before, which happens in descending order. */
  predicate Repeats(c: Config, out: seq<Pt>, k: nat, start: int)
    requires k <= |out|
  {
    !c.ascending && k > 0 && start == out[k - 1].time
  }

  /** A window starting at start is the first one, or begins where the k-th area begins, or is
      the same as the one before. */
  predicate Meets(c: Config, pts: seq<Pt>, out: seq<Pt>, k: nat, start: int)
    requires Grouped(c.opt) && pts != [] && k <= |out|
  {
    || (if k == 0 then AtOrPast(c, pts[0].time, start) else start == Begin(c, pts, out, k))
    || Repeats(c, out, k, start)
  }

  predicate Contiguous(c: Config, pts: seq<Pt>, out: seq<Pt>)
    requires Grouped(c.opt) && pts != []
  {
    forall k :: 0 <= k < |out| ==> Meets(c, pts, out, k, out[k].time)
  }

  lemma {:induction false} RunIsContiguous(c: Config, pts: seq<Pt>)
    requires Series(c, pts) && NoEmptyWindow(c, pts)
    ensures var (s, out) := Run(c, pts);
            Contiguous(c, pts, out) && Meets(c, pts, out, |out|, s.start)
  {
    hide Holds, Next, Bounds, NoEmptyWindow, Bounded, Repeats;
    var init, p := pts[..|pts| - 1], pts[|pts| - 1];
    RunHolds(c, pts);
    HoldsParts(c, pts, Run(c, pts).0, Run(c, pts).1);
    if init == [] {
      FirstHolds(c, pts);
      FirstRun(c, pts);
    } else {
      SeriesPrefix(c, pts);
      RunIsContiguous(c, init);
      RunHolds(c, init);
      NextMeets(c, pts);
    }
  }

  /** The window of the next point meets the one before it. */
  lemma NextStart(c: Config, pts: seq<Pt>, start: int64, end: int64)
    requires Series(c, pts) && |pts| > 1 && NextWindow(c, pts, |pts| - 1)
    requires (start, end) == Bounds(c, pts[|pts| - 2].time)
    ensures var next := Bounds(c, pts[|pts| - 1].time).0;
            if Passed(c, end, pts[|pts| - 1].time) && pts[|pts| - 2].time != pts[|pts| - 1].time
            then next == end || (!c.ascending && next == start)
            else next == start
  {
    hide Bounds, Bounded;
    if pts[|pts| - 2].time != pts[|pts| - 1].time { SameBounds(c, pts[|pts| - 2].time, pts[|pts| - 1].time); }
  }

  lemma NextMeets(c: Config, pts: seq<Pt>)
    requires Series(c, pts) && |pts| > 1 && NextWindow(c, pts, |pts| - 1)
    requires Series(c, pts[..|pts| - 1])
    requires var (s, out) := Run(c, pts[..|pts| - 1]);
             && Holds(c, pts[..|pts| - 1], s, out) && Contiguous(c, pts[..|pts| - 1], out)
             && Meets(c, pts[..|pts| - 1], out, |out|, s.start)
    ensures var (s, out) := Run(c, pts);
            Contiguous(c, pts, out) && Meets(c, pts, out, |out|, s.start)
  {
    hide Holds, Next, Bounds, Bounded, EndFrom, Passed, AtOrPast;
    var init, p := pts[..|pts| - 1], pts[|pts| - 1];
    var (s, out) := Run(c, init);
    HoldsParts(c, init, s, out);
    NextStart(c, pts, s.start, s.end);
    var (s', more) := Next(c, s, p);
    HoldsPrevious(c, init, s, out);
    if Moves(c, s, p) {
      PastWindow(c, pts, s, out);
    } else {
      SameWindow(c, pts, s, out);
      HoldsParts(c, pts, s', out);
    }
    var all := out + more;
    forall k | 0 <= k < |all| ensures Meets(c, pts, all, k, all[k].time) {
      assert k < |out| ==> Meets(c, init, out, k, out[k].time);
    }
  }

  /** The k-th value is the area inside its own window, or it is zero and repeats the window of
      the value before. */
  predicate WindowArea(c: Config, pts: seq<Pt>, out: seq<Pt>, k: nat)
    requires WellConfig(c) && Grouped(c.opt) && k < |out|
  {
    if Repeats(c, out, k, out[k].time) then out[k].value == 0.0
    else out[k].value == AreaUpTo(c, pts, EndFrom(c, out[k].time)) - AreaUpTo(c, pts, out[k].time)
  }

  /** With no wholly empty window between points, every emitted value is the area inside its own
      window; in descending order a window can come twice, and then the second value is zero. */
  lemma EmissionsAreWindowAreas(c: Config, pts: seq<Pt>)
    requires Series(c, pts) && NoEmptyWindow(c, pts)
    ensures forall k :: 0 <= k < |Emitted(c, pts)| ==> WindowArea(c, pts, Emitted(c, pts), k)
  {
    hide Holds, Run, AreaUpTo, Area, Bounds, NoEmptyWindow, Tiled, Bounded, EndFrom;
    EmissionsTile(c, pts);
    RunIsContiguous(c, pts);
    var (s, out) := Run(c, pts);
    var all := Emitted(c, pts);
    forall k | 0 <= k < |all| ensures WindowArea(c, pts, all, k) {
      TileAt(c, pts, all, k);
      assert k < |out| ==> Meets(c, pts, out, k, out[k].time);
      assert Meets(c, pts, all, k, all[k].time);
      NothingBeforeFirst(c, pts, pts[0].time);
      if k == 0 { NothingBeforeFirst(c, pts, all[k].time); }
    }
  }

  lemma TileAt(c: Config, pts: seq<Pt>, out: seq<Pt>, k: nat)
    ensures WellConfig(c) && Grouped(c.opt) && pts != [] && Tiled(c, pts, out) && k < |out| ==> Tile(c, pts, out, k)
  {
  }
}
