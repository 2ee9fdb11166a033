/** The windowed time integral: FloatIntegralReducer of query/functions.go over exact numbers. */
module Integrals {
  import opened Optional
  import opened Int64
  import opened Windows

  datatype Pt = Pt(time: int64, value: real)

  /** unit is the duration that one whole of the integral stands for. */
  datatype Config = Config(opt: Options, ascending: bool, unit: int64)

  predicate WellConfig(c: Config) {
    c.opt.duration >= 0 && c.unit > 0
  }

  /** linearFloat: the value at x of the line through a and b. */
  function Linear(x: int64, a: Pt, b: Pt): (v: real)
    requires a.time != b.time
  {
    (b.value - a.value) / (b.time - a.time) as int as real * (x - a.time) as int as real + a.value
  }

  /** The area under the segment from a to b, negative when b is earlier. */
  function Trapezium(c: Config, a: Pt, b: Pt): (area: real)
    requires WellConfig(c)
  {
    0.5 * (b.value + a.value) * ((b.time - a.time) as int as real / c.unit as real)
  }

  // ---------- one point at a time ----------

  datatype State = State(prev: Option<Pt>, start: int64, end: int64, sum: real)

  const FRESH := State(None, 0, 0, 0.0)

  /** The bounds of t's window in the order in which they are passed. */
  function Bounds(c: Config, t: int64): (w: (int64, int64))
    requires WellConfig(c)
  {
    var (start, end) := Window(c.opt, t);
    if c.ascending then (start, end) else (end, start)
  }

  predicate Passed(c: Config, end: int64, t: int64) {
    Grouped(c.opt) && if c.ascending then t >= end else t <= end
  }

  /** AggregateFloat: the new state and what is put into the channel. */
  function Next(c: Config, s: State, p: Pt): (r: (State, seq<Pt>))
    requires WellConfig(c)
  {
    if s.prev.None? then
      var (start, end) := if Grouped(c.opt) then Bounds(c, p.time) else (s.start, s.end);
      (State(Some(p), start, end, s.sum), [])
    else
      var a := s.prev.value;
      if a.time == p.time then (s.(prev := Some(p)), [])
      else if Passed(c, s.end, p.time) then
        var mid := if a.time != s.end then Pt(s.end, Linear(s.end, a, p)) else a;
        var sum := if a.time != s.end then s.sum + Trapezium(c, a, mid) else s.sum;
        var (start, end) := Bounds(c, p.time);
        (State(Some(p), start, end, Trapezium(c, mid, p)), [Pt(s.start, sum)])
      else (s.(prev := Some(p), sum := s.sum + Trapezium(c, a, p)), [])
  }

  /** Close: what is flushed. */
  function Flushed(s: State): (out: seq<Pt>) {
    if s.prev.Some? && s.prev.value.time != s.start then [Pt(s.start, s.sum)] else []
  }

  function Run(c: Config, pts: seq<Pt>): (r: (State, seq<Pt>))
    requires WellConfig(c)
    ensures r.0.prev == if pts == [] then None else Some(pts[|pts| - 1])
  {
    if pts == [] then (FRESH, [])
    else
      var (s, out) := Run(c, pts[..|pts| - 1]);
      var (s', more) := Next(c, s, pts[|pts| - 1]);
      (s', out + more)
  }

  function Emitted(c: Config, pts: seq<Pt>): (out: seq<Pt>)
    requires WellConfig(c)
  {
    Run(c, pts).1 + Flushed(Run(c, pts).0)
  }

  // ---------- the reducer ----------

  class FloatIntegralReducer {
    const c: Config
    var prev: Option<Pt>
    var start: int64
    var end: int64
    var sum: real
    var ch: seq<Pt>
    var closed: bool

    constructor (c: Config)
      ensures this.c == c && Snapshot() == FRESH && ch == [] && !closed
    {
      this.c := c;
      prev, start, end, sum, ch, closed := None, 0, 0, 0.0, [], false;
    }

    ghost function Snapshot(): (s: State)
      reads this
    {
      State(prev, start, end, sum)
    }

    /** The channel has one slot, which must be free. */
    method AggregateFloat(p: Pt)
      requires WellConfig(c) && ch == [] && !closed
      modifies this
      ensures (Snapshot(), ch) == Next(c, old(Snapshot()), p) && !closed
    {
      hide Trapezium, Linear, Bounds;
      if prev.None? {
        prev := Some(p);
        if c.opt.duration != 0 { MoveWindow(p.time); }
        return;
      }
      if prev.value.time == p.time {
        prev := Some(p);
        return;
      } else if c.opt.duration != 0 &&
                ((c.ascending && p.time >= end) || (!c.ascending && p.time <= end)) {
        if prev.value.time != end {
          var mid := Pt(end, Linear(end, prev.value, p));
          sum := sum + Trapezium(c, prev.value, mid);
          prev := Some(mid);
        }
        ch := [Pt(start, sum)];
        MoveWindow(p.time);
        sum := 0.0;
      }
      sum := sum + Trapezium(c, prev.value, p);
      prev := Some(p);
    }

    method MoveWindow(t: int64)
      requires WellConfig(c)
      modifies this`start, this`end
      ensures (start, end) == Bounds(c, t)
    {
      var w := Window(c.opt, t);
      if c.ascending { start, end := w.0, w.1; } else { end, start := w.0, w.1; }
    }

    /** Takes what is in the channel, if anything. */
    method Emit() returns (out: seq<Pt>)
      requires |ch| <= 1
      modifies this`ch
      ensures out == old(ch) && ch == []
    {
      out := [];
      if |ch| > 0 { out, ch := [ch[0]], ch[1..]; }
    }

    method Close()
      requires ch == [] && !closed
      modifies this`ch, this`closed
      ensures ch == Flushed(Snapshot()) && closed
    {
      if prev.Some? && prev.value.time != start { ch := [Pt(start, sum)]; }
      closed := true;
    }
  }

  /** The loop of the stream iterator for one series: emit after every point, and once more
      after closing. */
  method Integrate(c: Config, pts: seq<Pt>) returns (out: seq<Pt>)
    requires WellConfig(c)
    ensures out == Emitted(c, pts)
  {
    var r := new FloatIntegralReducer(c);
    out := [];
    for i := 0 to |pts|
      invariant fresh(r) && r.c == c && r.ch == [] && !r.closed
      invariant (r.Snapshot(), out) == Run(c, pts[..i])
    {
      assert pts[..i + 1][..i] == pts[..i];
      r.AggregateFloat(pts[i]);
      var more := r.Emit();
      out := out + more;
    }
    assert pts[..|pts|] == pts;
    r.Close();
    var more := r.Emit();
    out := out + more;
  }

  // ---------- conservation ----------

  function Total(out: seq<Pt>): (sum: real) {
    if out == [] then 0.0 else Total(out[..|out| - 1]) + out[|out| - 1].value
  }

  /** The area under the whole piecewise linear curve. */
  function Area(c: Config, pts: seq<Pt>): (area: real)
    requires WellConfig(c)
  {
    if |pts| <= 1 then 0.0
    else Area(c, pts[..|pts| - 1]) + Trapezium(c, pts[|pts| - 2], pts[|pts| - 1])
  }

  lemma TotalOfOneMore(out: seq<Pt>, p: Pt)
    ensures Total(out + [p]) == Total(out) + p.value
  {
    assert (out + [p])[..|out|] == out;
  }

  /** With slope m, the two parts of a trapezium cut at any point of its line add up. */
  lemma CutAddsUp(m: real, v: real, x: real, y: real)
    ensures (m * x + v + v) * x + (m * (x + y) + v + (m * x + v)) * y == (m * (x + y) + v + v) * (x + y)
  {
    assert (m * x + v + v) * x == m * x * x + 2.0 * v * x;
    assert (m * (x + y) + v + (m * x + v)) * y == 2.0 * (m * x * y) + m * y * y + 2.0 * v * y;
    assert (m * (x + y) + v + v) * (x + y) == m * x * x + 2.0 * (m * x * y) + m * y * y + 2.0 * v * x + 2.0 * v * y;
  }

  lemma SlopeFits(d: real, t: real)
    ensures t != 0.0 ==> d / t * t == d
  {
  }

  lemma HalfOver(sum: real, t: real, u: real)
    requires u != 0.0
    ensures 0.5 * sum * (t / u) == sum * t * (0.5 / u)
  {
    var w := 1.0 / u;
    assert t / u == t * w && 0.5 / u == 0.5 * w;
    assert 0.5 * sum * (t * w) == sum * t * (0.5 * w);
  }

  lemma Distribute(a: real, b: real, k: real)
    ensures a * k + b * k == (a + b) * k
  {
  }

  /** The same for the trapezium formula, over any unit. */
  lemma CutAddsUpInUnits(m: real, v: real, x: real, y: real, u: real)
    requires u != 0.0
    ensures 0.5 * (m * x + v + v) * (x / u) + 0.5 * (m * (x + y) + v + (m * x + v)) * (y / u)
         == 0.5 * (m * (x + y) + v + v) * ((x + y) / u)
  {
    var (f, g, h) := (m * x + v + v, m * (x + y) + v + (m * x + v), m * (x + y) + v + v);
    HalfOver(f, x, u);
    HalfOver(g, y, u);
    HalfOver(h, x + y, u);
    Distribute(f * x, g * y, 0.5 / u);
    CutAddsUp(m, v, x, y);
  }

  /** Cutting a segment at any time of its line keeps the area. */
  lemma CutKeepsArea(c: Config, a: Pt, b: Pt, x: int64)
    requires WellConfig(c) && a.time != b.time
    ensures var mid := Pt(x, Linear(x, a, b));
            Trapezium(c, a, mid) + Trapezium(c, mid, b) == Trapezium(c, a, b)
  {
    var p, q: real := (x - a.time) as int as real, (b.time - x) as int as real;
    var t := (b.time - a.time) as int as real;
    var m := (b.value - a.value) / t;
    SlopeFits(b.value - a.value, t);
    CutAddsUpInUnits(m, a.value, p, q, c.unit as real);
  }

  lemma NextConserves(c: Config, s: State, p: Pt)
    requires WellConfig(c) && s.prev.Some?
    ensures var (s', out) := Next(c, s, p);
            |out| <= 1 && Total(out) + s'.sum == s.sum + Trapezium(c, s.prev.value, p)
  {
    hide Trapezium, Linear, Bounds;
    var a := s.prev.value;
    if a.time == p.time {
      ZeroWidth(c, a, p);
    } else if Passed(c, s.end, p.time) {
      CutKeepsArea(c, a, p, s.end);
      var out := Next(c, s, p).1;
      assert out[..0] == [];
    }
  }

  lemma ZeroWidth(c: Config, a: Pt, b: Pt)
    requires WellConfig(c) && a.time == b.time
    ensures Trapezium(c, a, b) == 0.0
  {
  }

  /** For every list of points, in any order, what has been emitted and what is held back add up
      to the area so far. */
  lemma {:induction false} RunConserves(c: Config, pts: seq<Pt>)
    requires WellConfig(c)
    ensures Total(Run(c, pts).1) + Run(c, pts).0.sum == Area(c, pts)
  {
    hide Trapezium, Next;
    if pts != [] {
      var init, p := pts[..|pts| - 1], pts[|pts| - 1];
      RunConserves(c, init);
      var (s, out) := Run(c, init);
      if init == [] {
        FirstPoint(c, p);
        assert out + [] == out;
      } else {
        NextConserves(c, s, p);
        var more := Next(c, s, p).1;
        if more == [] { assert out + more == out; } else { TotalOfOneMore(out, more[0]); assert more == [more[0]]; }
        assert more != [] ==> Total(more) == more[0].value by { if more != [] { assert more[..0] == []; } }
      }
    }
  }

  lemma FirstPoint(c: Config, p: Pt)
    requires WellConfig(c)
    ensures Next(c, FRESH, p).0.sum == 0.0 && Next(c, FRESH, p).1 == []
  {
  }

  /** All emitted values sum to the area of the curve exactly when Close does not discard a
      remainder: the last point is not at the start of its window, or nothing is held back. */
  lemma IntegralConservesIff(c: Config, pts: seq<Pt>)
    requires WellConfig(c) && pts != []
    ensures var s := Run(c, pts).0;
            Total(Emitted(c, pts)) == Area(c, pts) <==> pts[|pts| - 1].time != s.start || s.sum == 0.0
  {
    hide Run, Area;
    RunConserves(c, pts);
    var (s, out) := Run(c, pts);
    if Flushed(s) == [] { assert out + [] == out; } else { TotalOfOneMore(out, Pt(s.start, s.sum)); }
  }
}
