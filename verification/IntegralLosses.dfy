/** Exactly when the integral's values do not sum to the area of the curve, and when a window is
    emitted twice. */
module IntegralLosses {
  import opened Optional
  import opened Int64
  import opened Windows
  import opened Integrals
  import opened IntegralWindows

  // ---------- lost area ----------

  /** The part of the last segment that lies beyond the window in which the segment begins. */
  function LeftOver(c: Config, pts: seq<Pt>): (area: real)
    requires Series(c, pts)
  {
    if |pts| == 1 then 0.0
    else if pts[|pts| - 2].time == pts[|pts| - 1].time then LeftOver(c, pts[..|pts| - 1])
    else
      var a, b := pts[|pts| - 2], pts[|pts| - 1];
      var e := Bounds(c, a.time).1;
      Trapezium(c, Pt(e, Linear(e, a, b)), b)
  }

  /** In ascending order the emitted values sum to the area of the curve exactly when the last
      point is not at the start of its window or no area lies between its window and the one
      before. */
  lemma AscendingConservesIff(c: Config, pts: seq<Pt>)
    requires Series(c, pts) && c.ascending
    ensures Total(Emitted(c, pts)) == Area(c, pts) <==>
            pts[|pts| - 1].time != Window(c.opt, pts[|pts| - 1].time).0 || LeftOver(c, pts) == 0.0
  {
    hide Emitted, Total, Area, Window, Holds, LeftOver, Run;
    IntegralConservesIff(c, pts);
    RunHolds(c, pts);
    HoldsParts(c, pts, Run(c, pts).0, Run(c, pts).1);
    HeldAtStart(c, pts);
  }

  /** At the start of a window the sum held back is what is left over. */
  lemma {:induction false} HeldAtStart(c: Config, pts: seq<Pt>)
    requires Series(c, pts) && c.ascending
    ensures var s := Run(c, pts).0; pts[|pts| - 1].time == s.start ==> s.sum == LeftOver(c, pts)
  {
    hide Holds, Area, AreaUpTo, Trapezium, Linear, Bounded, Window;
    RunHolds(c, pts);
    HoldsParts(c, pts, Run(c, pts).0, Run(c, pts).1);
    if |pts| == 1 {
      FirstRun(c, pts);
      FirstPoint(c, pts[0]);
    } else {
      var init, a, b := pts[..|pts| - 1], pts[|pts| - 2], pts[|pts| - 1];
      SeriesPrefix(c, pts);
      RunHolds(c, init);
      var (s, out) := Run(c, init);
      HoldsParts(c, init, s, out);
      BoundsHold(c, a.time);
      if a.time == b.time { HeldAtStart(c, init); } else { SameBounds(c, a.time, b.time); }
    }
  }

  /** In descending order nothing is ever lost. */
  lemma DescendingConserves(c: Config, pts: seq<Pt>)
    requires Series(c, pts) && !c.ascending
    ensures Total(Emitted(c, pts)) == Area(c, pts)
  {
    hide Holds, Emitted, Total, Area, Bounded, Bounds, Run;
    IntegralConservesIff(c, pts);
    RunHolds(c, pts);
    HoldsParts(c, pts, Run(c, pts).0, Run(c, pts).1);
    BoundsHold(c, pts[|pts| - 1].time);
  }

  /** With no wholly empty window nothing is lost in either direction. */
  lemma NothingLeftOver(c: Config, pts: seq<Pt>)
    requires Series(c, pts) && NoEmptyWindow(c, pts)
    ensures Total(Emitted(c, pts)) == Area(c, pts)
  {
    hide Run, Bounds, NoEmptyWindow, Tiled, Ended, Emitted, Area, AreaUpTo, Bounded, EndFrom;
    if c.ascending {
      IntegralConservesIff(c, pts);
      RunIsContiguous(c, pts);
      RunHolds(c, pts);
      var (s, out) := Run(c, pts);
      if pts[|pts| - 1].time == s.start { UpToLast(c, pts, Begin(c, pts, out, |out|)); }
    } else {
      DescendingConserves(c, pts);
    }
  }

  /** Without grouping by time the area is lost exactly when the last time is zero. */
  lemma UngroupedConservesIff(c: Config, pts: seq<Pt>)
    requires WellConfig(c) && !Grouped(c.opt) && pts != []
    ensures Total(Emitted(c, pts)) == Area(c, pts) <==> pts[|pts| - 1].time != 0 || Area(c, pts) == 0.0
  {
    hide Emitted, Area, Window;
    IntegralConservesIff(c, pts);
    UngroupedRun(c, pts);
    RunConserves(c, pts);
  }

  lemma {:induction false} UngroupedRun(c: Config, pts: seq<Pt>)
    requires WellConfig(c) && !Grouped(c.opt)
    ensures Run(c, pts).0.start == 0 && Run(c, pts).1 == []
  {
    hide Trapezium, Linear, Window;
    if pts != [] { UngroupedRun(c, pts[..|pts| - 1]); }
  }

  // ---------- repeated windows ----------

  ghost predicate SomeRepeat(c: Config, out: seq<Pt>) {
    exists k :: 0 < k < |out| && Repeats(c, out, k, out[k].time)
  }

  /** Point i lies on the lower bound of the window of the point before, and later in the scan. */
  predicate OnBound(c: Config, pts: seq<Pt>, i: int)
    requires WellConfig(c) && 0 < i < |pts|
  {
    pts[i].time == Window(c.opt, pts[i - 1].time).0 && pts[i].time != pts[i - 1].time
  }

  ghost predicate SomeOnBound(c: Config, pts: seq<Pt>)
    requires WellConfig(c)
  {
    exists i :: 0 < i < |pts| && OnBound(c, pts, i)
  }

  /** What has been emitted, with the value being summed up. */
  function WithCurrent(s: State, out: seq<Pt>): (all: seq<Pt>) {
    out + [Pt(s.start, s.sum)]
  }

  lemma RepeatOfOneMore(c: Config, out: seq<Pt>, p: Pt, v: real)
    requires !c.ascending && out != []
    ensures SomeRepeat(c, out[..|out| - 1] + [Pt(out[|out| - 1].time, v)]) == SomeRepeat(c, out)
    ensures SomeRepeat(c, out + [p]) <==> SomeRepeat(c, out) || p.time == out[|out| - 1].time
  {
    var same := out[..|out| - 1] + [Pt(out[|out| - 1].time, v)];
    assert forall k :: 0 <= k < |out| ==> same[k].time == out[k].time;
    forall k | 0 < k < |out| ensures Repeats(c, same, k, same[k].time) == Repeats(c, out, k, out[k].time) {
    }
    var all := out + [p];
    forall k | 0 < k < |out| ensures Repeats(c, all, k, all[k].time) == Repeats(c, out, k, out[k].time) {
    }
    if p.time == out[|out| - 1].time { assert Repeats(c, all, |out|, all[|out|].time); }
    if SomeRepeat(c, out) {
      var k :| 0 < k < |out| && Repeats(c, out, k, out[k].time);
      assert Repeats(c, same, k, same[k].time) && Repeats(c, all, k, all[k].time);
    }
  }

  lemma OnBoundOfOneMore(c: Config, pts: seq<Pt>)
    requires WellConfig(c) && |pts| > 1
    ensures SomeOnBound(c, pts) <==> SomeOnBound(c, pts[..|pts| - 1]) || OnBound(c, pts, |pts| - 1)
  {
    hide Window;
    var init := pts[..|pts| - 1];
    forall i | 0 < i < |init| ensures OnBound(c, init, i) == OnBound(c, pts, i) {
    }
    if SomeOnBound(c, init) {
      var i :| 0 < i < |init| && OnBound(c, init, i);
      assert OnBound(c, pts, i);
    }
  }

  lemma {:induction false} RunRepeatsIff(c: Config, pts: seq<Pt>)
    requires Series(c, pts) && !c.ascending
    ensures SomeRepeat(c, WithCurrent(Run(c, pts).0, Run(c, pts).1)) <==> SomeOnBound(c, pts)
  {
    hide Holds, Next, Bounds, Bounded, SomeRepeat, SomeOnBound;
    var init, p := pts[..|pts| - 1], pts[|pts| - 1];
    if init == [] {
      FirstHolds(c, pts);
      FirstRun(c, pts);
      OneValue(c, pts, Run(c, pts).0);
    } else {
      SeriesPrefix(c, pts);
      RunRepeatsIff(c, init);
      RunHolds(c, init);
      OnBoundOfOneMore(c, pts);
      NextRepeats(c, pts);
    }
  }

  lemma OneValue(c: Config, pts: seq<Pt>, s: State)
    requires WellConfig(c) && |pts| == 1
    ensures !SomeRepeat(c, WithCurrent(s, [])) && !SomeOnBound(c, pts)
  {
    hide Window;
  }

  lemma NextRepeats(c: Config, pts: seq<Pt>)
    requires Series(c, pts) && !c.ascending && |pts| > 1 && Series(c, pts[..|pts| - 1])
    requires var (s, out) := Run(c, pts[..|pts| - 1]); Holds(c, pts[..|pts| - 1], s, out)
    ensures var (s, out) := Run(c, pts[..|pts| - 1]);
            SomeRepeat(c, WithCurrent(Run(c, pts).0, Run(c, pts).1)) <==>
            SomeRepeat(c, WithCurrent(s, out)) || OnBound(c, pts, |pts| - 1)
  {
    hide Holds, Next, Bounded, SomeRepeat, EndFrom, Window;
    var init, a, p := pts[..|pts| - 1], pts[|pts| - 2], pts[|pts| - 1];
    var (s, out) := Run(c, init);
    var (s', more) := Next(c, s, p);
    HoldsParts(c, init, s, out);
    HoldsPrevious(c, init, s, out);
    if a.time != p.time { SameBounds(c, a.time, p.time); }
    var was := WithCurrent(s, out);
    if Moves(c, s, p) {
      PastWindow(c, pts, s, out);
      RepeatOfOneMore(c, was, Pt(s'.start, s'.sum), more[0].value);
      RepeatOfOneMore(c, out + more, Pt(s'.start, s'.sum), 0.0);
      assert was[..|was| - 1] + [Pt(was[|was| - 1].time, more[0].value)] == out + more;
    } else {
      SameWindow(c, pts, s, out);
      HoldsParts(c, pts, s', out);
      RepeatOfOneMore(c, was, Pt(s'.start, s'.sum), s'.sum);
      assert was[..|was| - 1] + [Pt(was[|was| - 1].time, s'.sum)] == WithCurrent(s', out);
      assert out + [] == out;
    }
  }

  /** In descending order two values in a row have the same window if and only if some point lies
      on the lower bound of the window of the point before it. */
  lemma DescendingRepeatsIff(c: Config, pts: seq<Pt>)
    requires Series(c, pts) && !c.ascending
    ensures SomeRepeat(c, Emitted(c, pts)) <==> SomeOnBound(c, pts)
  {
    hide Holds, Bounded, SomeRepeat, SomeOnBound, Bounds, Run;
    RunRepeatsIff(c, pts);
    RunHolds(c, pts);
    HoldsParts(c, pts, Run(c, pts).0, Run(c, pts).1);
    BoundsHold(c, pts[|pts| - 1].time);
  }

  // ---------- inputs that show it ----------

  /** The run over two points, step by step. */
  lemma TwoPoints(c: Config, a: Pt, b: Pt, first: State, last: State, out: seq<Pt>)
    requires WellConfig(c) && Next(c, FRESH, a) == (first, []) && Next(c, first, b) == (last, out)
    ensures Emitted(c, [a, b]) == out + Flushed(last) && Area(c, [a, b]) == Trapezium(c, a, b)
  {
    hide Next, Trapezium;
    var pts := [a, b];
    assert pts[..1] == [a] && [a][..0] == [];
    FirstRun(c, [a]);
    assert [] + out == out;
  }

  lemma TotalOfOne(p: Pt)
    ensures Total([p]) == p.value
  {
    assert [p][..0] == [];
  }

  lemma TenWindows(c: Config)
    requires c.opt == Options(0, 100, 10, 0, 0)
    ensures Window(c.opt, 5) == (0, 10) && Window(c.opt, 10) == (10, 20)
    ensures Window(c.opt, 15) == (10, 20) && Window(c.opt, 30) == (30, 40)
  {
    hide Window;
    TenWindow(c, 5, 0);
    TenWindow(c, 10, 1);
    TenWindow(c, 15, 1);
    TenWindow(c, 30, 3);
  }

  lemma TenWindow(c: Config, t: int64, n: int)
    requires c.opt == Options(0, 100, 10, 0, 0) && 0 <= 10 * n <= t < 10 * n + 10 <= 100
    ensures Window(c.opt, t) == (10 * n, 10 * n + 10)
  {
    hide Window, Bounded, Number, Wrap;
    NumberIsUnique(c.opt, t, n);
    WindowIsTrueIff(c.opt, t);
  }

  /** Area is lost: windows of 10, points at 5 and 30 of value 1. */
  lemma SkippedWindowLosesArea()
    ensures var c := Config(Options(0, 100, 10, 0, 0), true, 1);
            var pts := [Pt(5, 1.0), Pt(30, 1.0)];
            Series(c, pts) && Area(c, pts) == 25.0 && Total(Emitted(c, pts)) == 5.0
  {
    hide Window;
    var c := Config(Options(0, 100, 10, 0, 0), true, 1);
    var a, b := Pt(5, 1.0), Pt(30, 1.0);
    TenWindows(c);
    assert Linear(10, a, b) == 1.0;
    assert Trapezium(c, a, Pt(10, 1.0)) == 5.0 && Trapezium(c, Pt(10, 1.0), b) == 20.0;
    TwoPoints(c, a, b, State(Some(a), 0, 10, 0.0), State(Some(b), 30, 40, 20.0), [Pt(0, 5.0)]);
    TotalOfOne(Pt(0, 5.0));
    assert [Pt(0, 5.0)] + [] == [Pt(0, 5.0)];
  }

  /** Area is lost without grouping: points at -1 and 0 of value 1. */
  lemma LastAtZeroLosesArea()
    ensures var c := Config(Options(-10, 10, 0, 0, 0), true, 1);
            var pts := [Pt(-1, 1.0), Pt(0, 1.0)];
            Area(c, pts) == 1.0 && Emitted(c, pts) == []
  {
    var c := Config(Options(-10, 10, 0, 0, 0), true, 1);
    var a, b := Pt(-1, 1.0), Pt(0, 1.0);
    assert Trapezium(c, a, b) == 1.0;
    TwoPoints(c, a, b, State(Some(a), 0, 0, 0.0), State(Some(b), 0, 0, 1.0), []);
  }

  /** A window comes twice: windows of 10, points at 15 and 10 of value 1 in descending order. */
  lemma BoundRepeatsWindow()
    ensures var c := Config(Options(0, 100, 10, 0, 0), false, 1);
            var pts := [Pt(15, 1.0), Pt(10, 1.0)];
            Series(c, pts) && Emitted(c, pts) == [Pt(20, -5.0), Pt(20, 0.0)]
  {
    hide Window;
    var c := Config(Options(0, 100, 10, 0, 0), false, 1);
    var a, b := Pt(15, 1.0), Pt(10, 1.0);
    TenWindows(c);
    assert Linear(10, a, b) == 1.0;
    assert Trapezium(c, a, b) == -5.0 && Trapezium(c, b, b) == 0.0;
    TwoPoints(c, a, b, State(Some(a), 20, 10, 0.0), State(Some(b), 20, 10, 0.0), [Pt(20, -5.0)]);
  }
}
