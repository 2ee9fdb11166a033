/** The values in the rows of a merging cursor: what each scanner contributes to each row, and
    that no value is carried from one series into another. */
module CursorValues {
  import opened Optional
  import opened Cursors
  import opened CursorMerge

  // ---------- the reference ----------

  /** How many points are not after k. */
  function UpTo(asc: bool, pts: seq<Pt>, k: Key): (n: nat)
    ensures n <= |pts|
  {
    if pts == [] then 0
    else if Before(asc, k, pts[|pts| - 1].key) then UpTo(asc, pts[..|pts| - 1], k)
    else |pts|
  }

  /** The last value among the points of k's series. */
  function LastValue(pts: seq<Pt>, k: Key): (v: Option<int>) {
    if pts == [] then None
    else
      var p := pts[|pts| - 1];
      if SameSeries(p.key, k) && p.value.Some? then p.value else LastValue(pts[..|pts| - 1], k)
  }

  /** A column that holds the value if there is one, and is missing otherwise. */
  function Present(v: Option<int>): (c: Option<Option<int>>) {
    if v.None? then None else Some(v)
  }

  /** What a row with key k shows in the scanner's column: the value of the scanner's point at k,
      or else the fill value, or else, with SkipDefault, the last earlier value of the series. */
  function Expected(asc: bool, s: Scanner, k: Key): (c: Option<Option<int>>) {
    var n := UpTo(asc, s.points, k);
    if s.default == Skip then Present(LastValue(s.points[..n], k))
    else if n > 0 && s.points[n - 1].key == k && s.points[n - 1].value.Some? then Some(s.points[n - 1].value)
    else Some(s.default.value)
  }

  function Column(m: Values, c: string): (v: Option<Option<int>>) {
    if c in m then Some(m[c]) else None
  }

  predicate DistinctColumns(ss: seq<Scanner>) {
    forall i, j :: 0 <= i < j < |ss| && ss[i].column != "" ==> ss[i].column != ss[j].column
  }

  lemma {:induction false} UpToIs(asc: bool, pts: seq<Pt>, k: Key, n: nat)
    requires n <= |pts|
    requires forall j :: 0 <= j < n ==> !Before(asc, k, pts[j].key)
    requires forall j :: n <= j < |pts| ==> Before(asc, k, pts[j].key)
    ensures UpTo(asc, pts, k) == n
  {
    hide Before;
    if n < |pts| { UpToIs(asc, pts[..|pts| - 1], k, n); }
  }

  lemma {:induction false} UpToMeans(asc: bool, pts: seq<Pt>, k: Key)
    requires Ordered(asc, pts)
    ensures var n := UpTo(asc, pts, k);
            && (forall j :: 0 <= j < n ==> !Before(asc, k, pts[j].key))
            && (forall j :: n <= j < |pts| ==> Before(asc, k, pts[j].key))
  {
    hide Before;
    if pts != [] {
      var last := pts[|pts| - 1].key;
      if Before(asc, k, last) {
        UpToMeans(asc, pts[..|pts| - 1], k);
      } else {
        forall j | 0 <= j < |pts| - 1 ensures !Before(asc, k, pts[j].key) {
          assert Before(asc, pts[j].key, last);
          if Before(asc, k, pts[j].key) { BeforeChains(asc, k, pts[j].key, last); }
        }
      }
    }
  }

  // ---------- one scanner, one row ----------

  /** The scanner has read the points up to the last row's key; none is None. */
  predicate ReadUpTo(asc: bool, s: Scanner, last: Option<Key>) {
    s.pos == if last.None? then 0 else UpTo(asc, s.points, last.value)
  }

  /** k is the next key: it is after the last row's key, and no unread point is before it. */
  predicate Follows(asc: bool, s: Scanner, last: Option<Key>, k: Key) {
    && WellScanner(asc, s) && ReadUpTo(asc, s, last)
    && (last.Some? ==> Before(asc, last.value, k)) && (Peek(s).Some? ==> !Before(asc, Peek(s).value, k))
  }

  lemma ReadPointsAreBefore(asc: bool, s: Scanner, last: Option<Key>, k: Key, j: nat)
    requires Follows(asc, s, last, k) && j < s.pos
    ensures Before(asc, s.points[j].key, k)
    ensures SameSeries(s.points[j].key, k) ==> last.Some? && SameSeries(last.value, k)
  {
    hide Before;
    UpToMeans(asc, s.points, last.value);
    var x := s.points[j].key;
    BeforeIsOrder(asc, x, last.value);
    if x != last.value { BeforeChains(asc, x, last.value, k); }
  }

  lemma AdvancesUpTo(asc: bool, s: Scanner, last: Option<Key>, k: Key)
    requires Follows(asc, s, last, k)
    ensures ReadUpTo(asc, Advanced(s, k), Some(k))
  {
    hide Before;
    var t := Advanced(s, k);
    forall j | 0 <= j < t.pos ensures !Before(asc, k, s.points[j].key) {
      BeforeIsOrder(asc, s.points[j].key, k);
      if j < s.pos { ReadPointsAreBefore(asc, s, last, k, j); }
    }
    forall j | t.pos <= j < |s.points| ensures Before(asc, k, s.points[j].key) {
      var head := Peek(s).value;
      BeforeIsOrder(asc, head, k);
      assert j > s.pos ==> Before(asc, head, s.points[j].key);
      if j > s.pos && head != k { BeforeChains(asc, k, head, s.points[j].key); }
    }
    UpToIs(asc, s.points, k, t.pos);
  }

  lemma {:induction false} NoValueYet(pts: seq<Pt>, k: Key)
    requires forall j :: 0 <= j < |pts| ==> !SameSeries(pts[j].key, k)
    ensures LastValue(pts, k) == None
  {
    hide SameSeries;
    if pts != [] { NoValueYet(pts[..|pts| - 1], k); }
  }

  lemma {:induction false} LastValueOfSeries(pts: seq<Pt>, a: Key, b: Key)
    requires SameSeries(a, b)
    ensures LastValue(pts, a) == LastValue(pts, b)
  {
    if pts != [] { LastValueOfSeries(pts[..|pts| - 1], a, b); }
  }

  /** What the map holds for a scanner that skips defaults, before the row at k is scanned. */
  lemma CarriedIntoRow(asc: bool, s: Scanner, last: Option<Key>, k: Key, held: Option<Option<int>>)
    requires Follows(asc, s, last, k)
    requires if last.Some? && SameSeries(last.value, k) then held == Present(LastValue(s.points[..s.pos], last.value))
             else held == None
    ensures held == Present(LastValue(s.points[..s.pos], k))
  {
    hide Before, UpTo;
    var read := s.points[..s.pos];
    if last.Some? && SameSeries(last.value, k) {
      LastValueOfSeries(read, last.value, k);
    } else {
      forall j | 0 <= j < |read| ensures !SameSeries(read[j].key, k) {
        ReadPointsAreBefore(asc, s, last, k, j);
      }
      NoValueYet(read, k);
    }
  }

  /** The scanner's column after ScanAt. */
  lemma StoredIsExpected(asc: bool, s: Scanner, last: Option<Key>, k: Key, m: Values)
    requires Follows(asc, s, last, k) && !Failed(s) && s.column != ""
    requires s.default == Skip ==> Column(m, s.column) == Present(LastValue(s.points[..s.pos], k))
    ensures Column(Stored(s, k, m), s.column) == Expected(asc, s, k)
  {
    hide Before, UpTo;
    AdvancesUpTo(asc, s, last, k);
    if Peek(s) == Some(k) {
      assert s.points[..s.pos + 1][..s.pos] == s.points[..s.pos];
    } else if s.pos > 0 {
      ReadPointsAreBefore(asc, s, last, k, s.pos - 1);
      BeforeIsOrder(asc, s.points[s.pos - 1].key, k);
    }
  }

  // ---------- all scanners, one row ----------

  lemma StoredElsewhere(s: Scanner, k: Key, m: Values, c: string)
    ensures c != s.column ==> Column(Stored(s, k, m), c) == Column(m, c)
  {
  }

  /** Only a scanner's own column decides what it stores there. */
  lemma StoredByColumn(s: Scanner, k: Key, m: Values, m': Values)
    requires Column(m, s.column) == Column(m', s.column)
    ensures Column(Stored(s, k, m), s.column) == Column(Stored(s, k, m'), s.column)
  {
  }

  lemma {:induction false} OthersKeepColumn(ss: seq<Scanner>, k: Key, m: Values, c: string)
    requires forall i :: 0 <= i < |ss| ==> ss[i].column != c
    ensures Column(AllStored(ss, k, m), c) == Column(m, c)
  {
    hide Stored;
    if ss != [] {
      OthersKeepColumn(ss[..|ss| - 1], k, m, c);
      StoredElsewhere(ss[|ss| - 1], k, AllStored(ss[..|ss| - 1], k, m), c);
    }
  }

  lemma {:induction false} AllStoredAt(ss: seq<Scanner>, k: Key, m: Values, i: nat)
    requires DistinctColumns(ss) && i < |ss| && ss[i].column != ""
    ensures Column(AllStored(ss, k, m), ss[i].column) == Column(Stored(ss[i], k, m), ss[i].column)
  {
    hide Stored, Column;
    var init, s := ss[..|ss| - 1], ss[|ss| - 1];
    var before := AllStored(init, k, m);
    if i < |init| {
      AllStoredAt(init, k, m, i);
      StoredElsewhere(s, k, before, ss[i].column);
    } else {
      forall j | 0 <= j < |init| ensures init[j].column != s.column {
        assert init[j] == ss[j];
      }
      OthersKeepColumn(init, k, m, s.column);
      StoredByColumn(s, k, before, m);
    }
  }

  // ---------- the run ----------

  /** The state after the row with key last, or before the first row. */
  predicate Carrying(asc: bool, st: State, last: Option<Key>) {
    && AllWell(asc, st.scanners) && DistinctColumns(st.scanners)
    && (if last.None? then st.values == map[] else InSeries(last.value, st.series))
    && forall i :: 0 <= i < |st.scanners| ==> Carries(asc, st.scanners[i], st.values, last)
  }

  predicate Carries(asc: bool, s: Scanner, m: Values, last: Option<Key>)
    requires WellScanner(asc, s)
  {
    && ReadUpTo(asc, s, last)
    && (last.Some? && s.column != "" && s.default == Skip ==>
          Column(m, s.column) == Present(LastValue(s.points[..s.pos], last.value)))
  }

  lemma NextFollows(asc: bool, st: State, last: Option<Key>, k: Key, i: nat)
    requires Carrying(asc, st, last) && First(asc, st.scanners) == Some(k) && i < |st.scanners|
    ensures Follows(asc, st.scanners[i], last, k)
  {
    hide Before, First, UpTo, LastValue, Column;
    var ss := st.scanners;
    HeadsAreNotBefore(asc, ss, k);
    if last.Some? {
      FirstIsSome(asc, ss);
      var j :| 0 <= j < |ss| && Peek(ss[j]) == Some(k);
      UpToMeans(asc, ss[j].points, last.value);
      assert Carries(asc, ss[j], st.values, last);
    }
    assert Carries(asc, ss[i], st.values, last);
  }

  /** One scanner in one row: the column is as expected, and the scanner is ready for the next. */
  lemma NextCarriesOne(asc: bool, st: State, last: Option<Key>, i: nat)
    requires Carrying(asc, st, last) && Next(asc, st).Some? && i < |st.scanners|
    ensures var (row, st') := Next(asc, st).value; var s := st.scanners[i];
            && (s.column != "" ==> Column(row.values, s.column) == Expected(asc, s, KeyOf(row)))
            && WellScanner(asc, st'.scanners[i]) && Carries(asc, st'.scanners[i], st'.values, Some(KeyOf(row)))
  {
    hide Before, First, UpTo, LastValue, Stored, AllStored, Column, Ordered;
    var (row, st') := Next(asc, st).value;
    NextParts(asc, st);
    var k, s := KeyOf(row), st.scanners[i];
    NextFollows(asc, st, last, k, i);
    AdvancesUpTo(asc, s, last, k);
    if s.column != "" {
      var m := if InSeries(k, st.series) then st.values else map[];
      assert !Failed(s);
      if s.default == Skip {
        HeldBefore(asc, st, last, k, i);
        CarriedIntoRow(asc, s, last, k, Column(m, s.column));
      }
      AllStoredAt(st.scanners, k, m, i);
      StoredIsExpected(asc, s, last, k, m);
    }
  }

  lemma HeldBefore(asc: bool, st: State, last: Option<Key>, k: Key, i: nat)
    requires Carrying(asc, st, last) && i < |st.scanners|
    requires st.scanners[i].column != "" && st.scanners[i].default == Skip
    ensures var m := if InSeries(k, st.series) then st.values else map[];
            var s := st.scanners[i];
            Column(m, s.column) ==
              if last.Some? && SameSeries(last.value, k) then Present(LastValue(s.points[..s.pos], last.value))
              else None
  {
    hide Before, UpTo, LastValue;
    assert Carries(asc, st.scanners[i], st.values, last);
  }

  lemma NextCarries(asc: bool, st: State, last: Option<Key>)
    requires Carrying(asc, st, last) && Next(asc, st).Some?
    ensures var (row, st') := Next(asc, st).value;
            Carrying(asc, st', Some(KeyOf(row))) && |st'.scanners| == |st.scanners|
  {
    hide Before, First, UpTo, LastValue, Stored, AllStored, Column, Ordered, Next;
    var (row, st') := Next(asc, st).value;
    NextParts(asc, st);
    AdvancedIsWell(asc, st.scanners, KeyOf(row));
    forall i | 0 <= i < |st'.scanners| ensures Carries(asc, st'.scanners[i], st'.values, Some(KeyOf(row))) {
      NextCarriesOne(asc, st, last, i);
    }
    assert forall i :: 0 <= i < |st.scanners| ==> st'.scanners[i].column == st.scanners[i].column;
  }

  /** Every row shows in every column what is expected there, whatever was read before it. */
  lemma {:induction false} RowsHoldExpected(asc: bool, st: State, last: Option<Key>, r: nat, i: nat)
    requires Carrying(asc, st, last) && r < |Rows(asc, st)|
    requires i < |st.scanners| && st.scanners[i].column != ""
    ensures var row := Rows(asc, st)[r];
            Column(row.values, st.scanners[i].column) == Expected(asc, st.scanners[i], KeyOf(row))
    decreases r
  {
    hide Next, Carrying, Expected, Column, KeyOf, Before;
    NextCarriesOne(asc, st, last, i);
    if r > 0 {
      var (row, st') := Next(asc, st).value;
      NextCarries(asc, st, last);
      NextParts(asc, st);
      RowsHoldExpected(asc, st', Some(KeyOf(row)), r - 1, i);
      SameExpected(asc, st.scanners[i], KeyOf(row), KeyOf(Rows(asc, st')[r - 1]));
    }
  }

  lemma SameExpected(asc: bool, s: Scanner, k: Key, k': Key)
    ensures Expected(asc, Advanced(s, k), k') == Expected(asc, s, k') && Advanced(s, k).column == s.column
  {
  }

  /** What the rows of a whole scan hold, column by column. */
  predicate AllExpected(asc: bool, scanners: seq<Scanner>, rows: seq<Row>) {
    forall r, i :: 0 <= r < |rows| && 0 <= i < |scanners| && scanners[i].column != "" ==>
      Column(rows[r].values, scanners[i].column) == Expected(asc, scanners[i], KeyOf(rows[r]))
  }

  /** Reading unread scanners with columns of their own to the end: every row holds the expected
      value of every scanner. */
  method ReadExpected(scanners: seq<Scanner>, ascending: bool) returns (rows: seq<Row>, err: bool)
    requires AllWell(ascending, scanners) && DistinctColumns(scanners)
    requires forall i :: 0 <= i < |scanners| ==> scanners[i].pos == 0
    ensures rows == Rows(ascending, State(scanners, map[], Series([], [], 0)))
    ensures AllExpected(ascending, scanners, rows)
  {
    hide Rows, Expected, Column, KeyOf;
    ghost var st := State(scanners, map[], Series([], [], 0));
    rows, err := ReadAll(scanners, ascending);
    assert Carrying(ascending, st, None);
    forall r, i | 0 <= r < |rows| && 0 <= i < |scanners| && scanners[i].column != ""
      ensures Column(rows[r].values, scanners[i].column) == Expected(ascending, scanners[i], KeyOf(rows[r]))
    {
      RowsHoldExpected(ascending, st, None, r, i);
    }
  }
}
