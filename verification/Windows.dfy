/** GROUP BY time windows: IteratorOptions.Window of query/iterator.go and the bucket count of
    query/compile.go. */
module Windows {
  import opened Int64

  /** influxql.MinTime and influxql.MaxTime */
  const MIN_TIME: int64 := MIN + 2
  const MAX_TIME: int64 := MAX - 1

  /** The part of IteratorOptions that Window reads. A duration of zero means no interval;
      zone is the constant offset of the location, zero if there is none. */
  datatype Options = Options(startTime: int64, endTime: int64, duration: int64, offset: int64, zone: int64)

  predicate Grouped(opt: Options) {
    opt.duration > 0
  }

  /** How far into its window t is, in the source's arithmetic. */
  function Into(opt: Options, t: int64): (dt: int)
    requires Grouped(opt)
    ensures 0 <= dt < opt.duration
  {
    var dt := Remainder(Wrap(t + opt.zone), opt.duration);
    if dt < 0 then dt + opt.duration else dt
  }

  /** Window */
  function Window(opt: Options, at: int64): (w: (int64, int64))
    requires opt.duration >= 0
  {
    if opt.duration == 0 then (opt.startTime, Wrap(opt.endTime + 1))
    else
      var t := Wrap(at - opt.offset);
      var dt := Into(opt, t);
      var start := if Wrap(MIN_TIME + dt) >= t then MIN_TIME else Wrap(t - dt);
      var left := opt.duration - dt;
      var end := if Wrap(MAX_TIME - left) <= t then MAX_TIME else Wrap(t + left);
      (Wrap(start + opt.offset), Wrap(end + opt.offset))
  }

  // ---------- windows over all integers ----------

  /** The number of the window of t; windows are d long and window 0 starts at offset - zone. */
  function Number(opt: Options, t: int): (n: int)
    requires Grouped(opt)
  {
    (t - opt.offset + opt.zone) / opt.duration
  }

  function StartOf(opt: Options, t: int): (s: int)
    requires Grouped(opt)
  {
    opt.offset - opt.zone + Number(opt, t) * opt.duration
  }

  predicate InWindow(opt: Options, start: int, t: int) {
    start <= t < start + opt.duration
  }

  lemma StartIsBefore(opt: Options, t: int)
    requires Grouped(opt)
    ensures InWindow(opt, StartOf(opt, t), t)
    ensures t - StartOf(opt, t) == (t - opt.offset + opt.zone) % opt.duration
  {
    var x := t - opt.offset + opt.zone;
    assert x == x / opt.duration * opt.duration + x % opt.duration;
  }

  /** A time is in the window with number n exactly when its own number is n. */
  lemma NumberIsUnique(opt: Options, t: int, n: int)
    requires Grouped(opt)
    ensures InWindow(opt, opt.offset - opt.zone + n * opt.duration, t) <==> Number(opt, t) == n
  {
    StartIsBefore(opt, t);
    var m := Number(opt, t);
    if m < n { FactorsDiffer(m, n, opt.duration); }
    if n < m { FactorsDiffer(n, m, opt.duration); }
  }

  // ---------- the source's windows ----------

  lemma NegativeRemainder(x: int, d: int)
    requires x < 0 && d > 0
    ensures x % d == (if -x % d == 0 then 0 else d - -x % d)
  {
    var q, r := -x / d, -x % d;
    assert -x == q * d + r;
    var m := if r == 0 then -q else -q - 1;
    var s := if r == 0 then 0 else d - r;
    assert m * d == if r == 0 then -(q * d) else -(q * d) - d;
    assert x == m * d + s;
    RemainderIsUnique(x, d, m, s);
  }

  /** Wrap moves a number less than one range out of 64 bits by one range. */
  lemma WrapNear(x: int)
    requires MIN - RANGE <= x <= MAX + RANGE
    ensures Wrap(x) == if x < MIN then x + RANGE else if x > MAX then x - RANGE else x
  {
  }

  /** t without the offset, as 64 bits keep it. */
  function Shifted(opt: Options, t: int64): (u: int64) {
    Wrap(t - opt.offset)
  }

  function Min(a: int, b: int): (m: int) {
    if a < b then a else b
  }

  /** The bounds of t's window before they wrap: as far from t as it is into the window and as it
      has left in it, but not beyond the time limits. */
  function From(opt: Options, t: int64): (s: int)
    requires Grouped(opt)
  {
    t - Min(Into(opt, Shifted(opt, t)), Shifted(opt, t) - MIN_TIME)
  }

  function To(opt: Options, t: int64): (e: int)
    requires Grouped(opt)
  {
    t + Min(opt.duration - Into(opt, Shifted(opt, t)), MAX_TIME - Shifted(opt, t))
  }

  lemma WindowIsFromTo(opt: Options, t: int64)
    requires Grouped(opt)
    ensures Window(opt, t) == (Wrap(From(opt, t)), Wrap(To(opt, t)))
  {
    hide Into, Wrap;
    var u := Shifted(opt, t);
    var dt := Into(opt, u);
    assert Fits(MIN_TIME + dt) && Fits(MAX_TIME - (opt.duration - dt));
    Returns(t, opt.offset, From(opt, t) - t);
    Returns(t, opt.offset, To(opt, t) - t);
  }

  /** Taking the offset off and adding it again is the identity, up to wrapping. */
  lemma Returns(t: int, offset: int, step: int)
    ensures Wrap(Wrap(t - offset) + step + offset) == Wrap(t + step)
  {
    hide Wrap;
    WrapAdds(t - offset, step + offset);
  }

  /** How far t is into its window is computed truly exactly when the shift to the zone does not
      wrap, or wrapping does not matter to the duration. */
  lemma IntoIsTrueIff(opt: Options, t: int64)
    requires Grouped(opt)
    ensures Into(opt, Shifted(opt, t)) == t - StartOf(opt, t) <==>
            Fits(t - opt.offset + opt.zone) || RANGE % opt.duration == 0
  {
    hide StartOf, Wrap;
    var x := t - opt.offset + opt.zone;
    StartIsBefore(opt, t);
    WrapAdds(t - opt.offset, opt.zone);
    IntoIsModulo(opt, Shifted(opt, t));
    WrapNear(x);
    ModuloAgreesIff(x, RANGE, opt.duration);
    ModuloAgreesIff(x - RANGE, RANGE, opt.duration);
  }

  lemma IntoIsModulo(opt: Options, u: int64)
    requires Grouped(opt)
    ensures Into(opt, u) == Wrap(u + opt.zone) % opt.duration
  {
    hide Wrap;
    var x := Wrap(u + opt.zone);
    if x < 0 { NegativeRemainder(x, opt.duration); }
  }

  /** The source computes the true window exactly when that window, before the offset is added
      back, lies between the two time limits, fits 64 bits, and the shift to the zone does no
      harm. */
  lemma WindowIsTrueIff(opt: Options, t: int64)
    requires Grouped(opt)
    ensures var start, end, u := StartOf(opt, t), StartOf(opt, t) + opt.duration, Shifted(opt, t);
            Window(opt, t) == (start, end) <==>
              && (Fits(t - opt.offset + opt.zone) || RANGE % opt.duration == 0)
              && MIN_TIME <= u - (t - start) && u + (end - t) <= MAX_TIME && Fits(start) && Fits(end)
  {
    hide Window, StartOf, Wrap, Into, Shifted;
    StartIsBefore(opt, t);
    WindowIsFromTo(opt, t);
    IntoIsTrueIff(opt, t);
    WrapNear(From(opt, t));
    WrapNear(To(opt, t));
  }

  // ---------- times in their own windows ----------

  /** Taking the offset off t and adding the zone stays within 64 bits. */
  predicate Shiftable(opt: Options, t: int) {
    Fits(t - opt.offset) && Fits(t - opt.offset + opt.zone)
  }

  /** Where t's window starts and ends once it is clipped to the time limits. */
  function Lower(opt: Options, t: int): (s: int)
    requires Grouped(opt)
  {
    if StartOf(opt, t) < MIN_TIME + opt.offset then MIN_TIME + opt.offset else StartOf(opt, t)
  }

  function Upper(opt: Options, t: int): (e: int)
    requires Grouped(opt)
  {
    var end := StartOf(opt, t) + opt.duration;
    if MAX_TIME + opt.offset < end then MAX_TIME + opt.offset else end
  }

  lemma FromToAreClipped(opt: Options, t: int64)
    requires Grouped(opt) && Shiftable(opt, t)
    ensures From(opt, t) == Lower(opt, t) && To(opt, t) == Upper(opt, t)
  {
    hide Into, StartOf, Wrap;
    IntoIsTrueIff(opt, t);
  }

  /** t lies between the time limits, and its clipped window fits 64 bits. Without offset and
      zone these are the times from MIN_TIME up to MAX_TIME. */
  predicate Bounded(opt: Options, t: int)
    requires Grouped(opt)
  {
    && Shiftable(opt, t)
    && MIN_TIME <= t - opt.offset < MAX_TIME
    && Fits(Lower(opt, t)) && Fits(Upper(opt, t))
  }

  /** When t is in the window returned for it: for all times, and for those that can be shifted. */
  lemma WindowHoldsIff(opt: Options, t: int64)
    requires Grouped(opt)
    ensures Window(opt, t).0 <= t < Window(opt, t).1 <==>
            (MIN <= From(opt, t) <= t || From(opt, t) > MAX) && (t < To(opt, t) <= MAX || To(opt, t) < MIN)
    ensures Shiftable(opt, t) ==> (Window(opt, t).0 <= t < Window(opt, t).1 <==> Bounded(opt, t))
  {
    hide Window, StartOf, Wrap, Into;
    StartIsBefore(opt, t);
    WindowIsFromTo(opt, t);
    WrapNear(From(opt, t));
    WrapNear(To(opt, t));
    if Shiftable(opt, t) { FromToAreClipped(opt, t); }
  }

  /** Without offset and zone the last time is in no window. */
  lemma LastTimeIsOutside(opt: Options)
    requires Grouped(opt) && opt.offset == 0 && opt.zone == 0
    ensures Window(opt, MAX_TIME).1 == MAX_TIME
  {
    hide Window;
    StartIsBefore(opt, MAX_TIME);
    WindowIsFromTo(opt, MAX_TIME);
    FromToAreClipped(opt, MAX_TIME);
  }

  /** The windows partition the bounded times: such a time is in its own window, and a second
      one is in it exactly when it has the same window. A window is one duration long exactly
      when it is not clipped, and then it starts at the offset. */
  lemma WindowsPartition(opt: Options, t: int64, s: int64)
    requires Grouped(opt) && Bounded(opt, t) && Bounded(opt, s)
    ensures var (start, end) := Window(opt, t);
            && start <= t < end
            && (start <= s < end <==> Window(opt, s) == Window(opt, t))
            && (end - start == opt.duration <==>
                MIN_TIME <= StartOf(opt, t) - opt.offset && StartOf(opt, t) + opt.duration - opt.offset <= MAX_TIME)
            && (end - start == opt.duration ==> (start - opt.offset + opt.zone) % opt.duration == 0)
  {
    hide Window, Bounded, StartOf, Number;
    BoundedWindow(opt, t);
    BoundedWindow(opt, s);
    StartIsBefore(opt, t);
    StartIsAligned(opt, t);
    Apart(opt, s, t);
  }

  lemma BoundedWindow(opt: Options, t: int64)
    requires Grouped(opt) && Bounded(opt, t)
    ensures Window(opt, t) == (Lower(opt, t), Upper(opt, t))
    ensures MIN_TIME <= t - opt.offset < MAX_TIME && Lower(opt, t) <= t < Upper(opt, t)
  {
    hide Window, From, To, StartOf, Lower, Upper;
    BoundedParts(opt, t);
    WindowIsFromTo(opt, t);
    FromToAreClipped(opt, t);
  }

  lemma BoundedParts(opt: Options, t: int)
    requires Grouped(opt) && Bounded(opt, t)
    ensures Shiftable(opt, t) && MIN_TIME <= t - opt.offset < MAX_TIME && Lower(opt, t) <= t < Upper(opt, t)
  {
    hide StartOf;
    StartIsBefore(opt, t);
  }

  lemma StartIsAligned(opt: Options, t: int)
    requires Grouped(opt)
    ensures (StartOf(opt, t) - opt.offset + opt.zone) % opt.duration == 0
  {
    RemainderIsUnique(StartOf(opt, t) - opt.offset + opt.zone, opt.duration, Number(opt, t), 0);
  }

  /** Two times have the same window, or windows one after the other. */
  lemma Apart(opt: Options, s: int, t: int)
    requires Grouped(opt)
    ensures Number(opt, s) == Number(opt, t) ==> StartOf(opt, s) == StartOf(opt, t)
    ensures Number(opt, s) < Number(opt, t) ==> StartOf(opt, s) + opt.duration <= StartOf(opt, t)
    ensures Number(opt, t) < Number(opt, s) ==> StartOf(opt, t) + opt.duration <= StartOf(opt, s)
    ensures StartOf(opt, s) <= s < StartOf(opt, s) + opt.duration
  {
    StartIsBefore(opt, s);
    var n, m := Number(opt, s), Number(opt, t);
    if n < m { FactorsDiffer(n, m, opt.duration); }
    if m < n { FactorsDiffer(m, n, opt.duration); }
  }

  // ---------- the bucket count ----------

  /** The count in Prepare that is compared with max-select-buckets. */
  function Buckets(opt: Options): (n: int)
    requires Grouped(opt)
  {
    var first := Window(opt, opt.startTime).0;
    var last := Window(opt, Wrap(opt.endTime - 1)).0;
    Quotient(Wrap(Wrap(last - first) + opt.duration), opt.duration)
  }

  /** The windows that hold some time of [startTime, endTime - 1]. */
  ghost function WindowsMet(opt: Options): (ws: set<(int64, int64)>)
    requires Grouped(opt)
  {
    set t: int64 | opt.startTime <= t < opt.endTime :: Window(opt, t)
  }

  /** The window with number n, clipped to the time limits. */
  function Numbered(opt: Options, n: int): (w: (int, int)) {
    var start := opt.offset - opt.zone + n * opt.duration;
    (if start < MIN_TIME + opt.offset then MIN_TIME + opt.offset else start,
     if MAX_TIME + opt.offset < start + opt.duration then MAX_TIME + opt.offset else start + opt.duration)
  }

  /** The window with number n does not end before the lower time limit. */
  predicate Meets(opt: Options, n: int) {
    MIN_TIME < n * opt.duration + opt.duration - opt.zone
  }

  /** The windows numbered lo up to hi. */
  ghost function Row(opt: Options, lo: int, hi: int): (ws: set<(int, int)>)
    requires lo <= hi
    ensures forall i :: lo <= i < hi ==> Numbered(opt, i) in ws
    ensures forall w :: w in ws ==> exists i :: lo <= i < hi && w == Numbered(opt, i)
    decreases hi - lo
  {
    if lo == hi then {} else Row(opt, lo, hi - 1) + {Numbered(opt, hi - 1)}
  }

  lemma {:induction false} RowHasAll(opt: Options, lo: int, hi: int)
    requires Grouped(opt) && lo <= hi && Meets(opt, lo)
    ensures |Row(opt, lo, hi)| == hi - lo
    decreases hi - lo
  {
    hide Numbered, Meets;
    if lo < hi {
      RowHasAll(opt, lo, hi - 1);
      forall i | lo <= i < hi - 1 ensures Numbered(opt, i) != Numbered(opt, hi - 1) {
        NumberedApart(opt, lo, i, hi - 1);
      }
    }
  }

  lemma NumberedApart(opt: Options, lo: int, i: int, j: int)
    requires Grouped(opt) && lo <= i < j && Meets(opt, lo)
    ensures Numbered(opt, i) != Numbered(opt, j)
  {
    FactorsDiffer(i, j, opt.duration);
    if lo < i { FactorsDiffer(lo, i, opt.duration); }
  }

  /** Start and end of the time range are bounded. */
  predicate RangeBounded(opt: Options)
    requires Grouped(opt)
  {
    opt.startTime < opt.endTime && Bounded(opt, opt.startTime) && Bounded(opt, opt.endTime - 1)
  }

  lemma MetIsBounded(opt: Options, t: int)
    requires Grouped(opt) && RangeBounded(opt) && opt.startTime <= t < opt.endTime
    ensures Bounded(opt, t)
  {
    hide Number, StartOf;
    NumbersAscend(opt, opt.startTime, t);
    NumbersAscend(opt, t, opt.endTime - 1);
    Apart(opt, opt.startTime, t);
    Apart(opt, t, opt.endTime - 1);
  }

  lemma MetIsRow(opt: Options)
    requires Grouped(opt) && RangeBounded(opt)
    ensures var lo, hi := Number(opt, opt.startTime), Number(opt, opt.endTime - 1) + 1;
            lo < hi && WindowsMet(opt) == Row(opt, lo, hi) && |WindowsMet(opt)| == hi - lo
  {
    hide Window, Row, Numbered, Number, Meets, Bounded;
    var lo, hi := Number(opt, opt.startTime), Number(opt, opt.endTime - 1) + 1;
    NumbersAscend(opt, opt.startTime, opt.endTime - 1);
    var row := Row(opt, lo, hi);
    forall w | w in WindowsMet(opt) ensures w in row {
      var t: int64 :| opt.startTime <= t < opt.endTime && w == Window(opt, t);
      NumbersAscend(opt, opt.startTime, t);
      NumbersAscend(opt, t, opt.endTime - 1);
      MetIsBounded(opt, t);
      WindowIsNumbered(opt, t);
    }
    forall w | w in row ensures w in WindowsMet(opt) {
      var i :| lo <= i < hi && w == Numbered(opt, i);
      NumberIsMet(opt, i);
    }
    FirstMeets(opt, opt.startTime);
    RowHasAll(opt, lo, hi);
  }

  lemma FirstMeets(opt: Options, t: int)
    requires Grouped(opt) && Bounded(opt, t)
    ensures Meets(opt, Number(opt, t))
  {
    hide Number;
    StartIsBefore(opt, t);
  }

  lemma WindowIsNumbered(opt: Options, t: int64)
    requires Grouped(opt) && Bounded(opt, t)
    ensures Window(opt, t) == Numbered(opt, Number(opt, t))
  {
    hide Window, Number, Bounded;
    BoundedWindow(opt, t);
  }

  lemma NumbersAscend(opt: Options, s: int, t: int)
    requires Grouped(opt) && s <= t
    ensures Number(opt, s) <= Number(opt, t)
  {
    StartIsBefore(opt, s);
    StartIsBefore(opt, t);
    if Number(opt, t) < Number(opt, s) { FactorsDiffer(Number(opt, t), Number(opt, s), opt.duration); }
  }

  /** Every number between the first and the last belongs to some time of the range. */
  lemma NumberIsMet(opt: Options, n: int)
    requires Grouped(opt) && RangeBounded(opt)
    requires Number(opt, opt.startTime) <= n <= Number(opt, opt.endTime - 1)
    ensures Numbered(opt, n) in WindowsMet(opt)
  {
    hide Window, Bounded, Numbered;
    var start := opt.offset - opt.zone + n * opt.duration;
    StartIsBefore(opt, opt.startTime);
    StartIsBefore(opt, opt.endTime - 1);
    if Number(opt, opt.startTime) < n { FactorsDiffer(Number(opt, opt.startTime), n, opt.duration); }
    if n < Number(opt, opt.endTime - 1) { FactorsDiffer(n, Number(opt, opt.endTime - 1), opt.duration); }
    var t: int64 := if Number(opt, opt.startTime) == n then opt.startTime else start;
    NumberIsUnique(opt, t, n);
    MetIsBounded(opt, t);
    WindowIsNumbered(opt, t);
  }

  /** How far apart the first and the last window of the range start. */
  function Span(opt: Options): (span: int)
    requires Grouped(opt)
  {
    Lower(opt, opt.endTime - 1) - Lower(opt, opt.startTime)
  }

  lemma BucketsOfSpan(opt: Options)
    requires Grouped(opt) && RangeBounded(opt)
    ensures 0 <= Span(opt) < RANGE
    ensures var total := Span(opt) + opt.duration;
            Buckets(opt) == Quotient(if total <= MAX then total else total - RANGE, opt.duration)
  {
    hide Window, StartOf, Quotient, Wrap, Number, Bounded;
    var first: int64, last: int64 := opt.startTime, opt.endTime - 1;
    BoundedWindow(opt, first);
    BoundedWindow(opt, last);
    NumbersAscend(opt, first, last);
    Apart(opt, first, last);
    WrapTwice(Span(opt), opt.duration);
  }

  lemma WrapTwice(a: int, b: int)
    requires 0 <= a < RANGE && 0 < b <= MAX
    ensures Wrap(Wrap(a) + b) == if a + b <= MAX then a + b else a + b - RANGE
  {
    WrapNear(a);
    WrapNear(Wrap(a) + b);
  }

  /** The first window of the range is clipped, and the range goes on behind it. */
  predicate StartsClipped(opt: Options)
    requires Grouped(opt)
  {
    && StartOf(opt, opt.startTime) < MIN_TIME + opt.offset
    && Number(opt, opt.startTime) < Number(opt, opt.endTime - 1)
  }

  lemma BucketsByNumber(opt: Options)
    requires Grouped(opt) && RangeBounded(opt)
    ensures var n := Number(opt, opt.endTime - 1) - Number(opt, opt.startTime) + 1;
            if Span(opt) + opt.duration > MAX then Buckets(opt) <= 0
            else Buckets(opt) == if StartsClipped(opt) then n - 1 else n
  {
    hide Window, Quotient, Buckets, Span, RangeBounded;
    BucketsOfSpan(opt);
    NumbersAscendInRange(opt);
    var n, total := Number(opt, opt.endTime - 1) - Number(opt, opt.startTime) + 1, Span(opt) + opt.duration;
    if total > MAX {
      QuotientOfWrapped(total - RANGE, opt.duration);
    } else {
      SpanByNumber(opt, n - 1);
      var m := if StartsClipped(opt) then n - 1 else n;
      QuotientIs(total, opt.duration, m);
    }
  }

  lemma NumbersAscendInRange(opt: Options)
    requires Grouped(opt) && RangeBounded(opt)
    ensures Number(opt, opt.startTime) <= Number(opt, opt.endTime - 1)
  {
    hide Number;
    NumbersAscend(opt, opt.startTime, opt.endTime - 1);
  }

  /** With one duration added, the span reaches into the window after the last one that the
      formula counts. */
  lemma SpanByNumber(opt: Options, n: int)
    requires Grouped(opt) && RangeBounded(opt)
    requires n == Number(opt, opt.endTime - 1) - Number(opt, opt.startTime) >= 0
    ensures var m, total := if StartsClipped(opt) then n else n + 1, Span(opt) + opt.duration;
            m * opt.duration <= total < m * opt.duration + opt.duration
  {
    hide Number, Bounded, StartOf;
    BoundedParts(opt, opt.startTime);
    BoundedParts(opt, opt.endTime - 1);
    Apart(opt, opt.startTime, opt.endTime - 1);
    StartsByNumber(opt, opt.startTime, opt.endTime - 1);
    assert (n + 1) * opt.duration == n * opt.duration + opt.duration;
  }

  lemma StartsByNumber(opt: Options, s: int, t: int)
    requires Grouped(opt)
    ensures StartOf(opt, t) - StartOf(opt, s) == (Number(opt, t) - Number(opt, s)) * opt.duration
  {
    hide Number;
  }

  lemma QuotientOfWrapped(a: int, d: int)
    ensures a < d && d > 0 ==> Quotient(a, d) <= 0
  {
  }

  lemma QuotientIs(a: int, d: int, m: int)
    requires d > 0 && a >= 0 && m * d <= a < m * d + d
    ensures Quotient(a, d) == m
  {
    RemainderIsUnique(a, d, m, a - m * d);
  }

  /** The bucket count is the number of distinct windows that the time range meets, exactly
      when the range is not so wide that the count's own arithmetic overflows and does not go
      on behind a first window that is clipped. */
  lemma BucketsCountWindowsIff(opt: Options)
    requires Grouped(opt) && RangeBounded(opt)
    ensures Buckets(opt) == |WindowsMet(opt)| <==> Span(opt) + opt.duration <= MAX && !StartsClipped(opt)
  {
    hide Buckets, WindowsMet, Row, Number, Window, Span, RangeBounded, StartsClipped;
    BucketsByNumber(opt);
    MetIsRow(opt);
  }

  /** A range that is too wide: its count is not positive, so it is below every limit. */
  lemma WideRangeIsNotCounted()
    ensures var opt := Options(MIN_TIME + 1, MAX_TIME - 1, 1, 0, 0);
            Grouped(opt) && RangeBounded(opt) && Buckets(opt) <= 0 < |WindowsMet(opt)|
  {
    hide Buckets, WindowsMet, Window, Row;
    var opt := Options(MIN_TIME + 1, MAX_TIME - 1, 1, 0, 0);
    assert RangeBounded(opt);
    BucketsByNumber(opt);
    MetIsRow(opt);
  }

  /** A range that begins in the clipped window: ten windows of ten and one of six count as ten. */
  lemma ClippedWindowIsNotCounted()
    ensures var opt := Options(MIN_TIME + 1, MIN_TIME + 101, 10, 0, 0);
            Grouped(opt) && RangeBounded(opt) && Buckets(opt) == 10 && |WindowsMet(opt)| == 11
  {
    hide Buckets, WindowsMet, Window, Row;
    var opt := Options(MIN_TIME + 1, MIN_TIME + 101, 10, 0, 0);
    assert RangeBounded(opt);
    BucketsByNumber(opt);
    MetIsRow(opt);
  }
}
