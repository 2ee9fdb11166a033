/** The rows of a merging cursor are the union of its scanners' points, in order, each once. */
module CursorMerge {
  import opened Optional
  import opened Cursors

  predicate AllWell(asc: bool, ss: seq<Scanner>) {
    forall i :: 0 <= i < |ss| ==> WellScanner(asc, ss[i])
  }

  // ---------- all rows ----------

  function Left(s: Scanner): (n: nat) {
    if s.pos < |s.points| then |s.points| - s.pos else 0
  }

  function Remaining(ss: seq<Scanner>): (n: nat) {
    if ss == [] then 0 else Remaining(ss[..|ss| - 1]) + Left(ss[|ss| - 1])
  }

  lemma {:induction false} AdvancingConsumes(ss: seq<Scanner>, k: Key)
    ensures Remaining(AllAdvanced(ss, k)) <= Remaining(ss)
    ensures AtSome(ss, k) ==> Remaining(AllAdvanced(ss, k)) < Remaining(ss)
  {
    hide AllAdvanced;
    if ss != [] {
      var init, s := ss[..|ss| - 1], ss[|ss| - 1];
      AdvancingConsumes(init, k);
      assert AllAdvanced(ss, k)[..|ss| - 1] == AllAdvanced(init, k);
      if AtSome(ss, k) && Peek(s) != Some(k) {
        var i :| 0 <= i < |ss| && Peek(ss[i]) == Some(k);
        assert Peek(init[i]) == Some(k);
      }
    }
  }

  lemma NextConsumes(asc: bool, st: State)
    requires Next(asc, st).Some?
    ensures Remaining(Next(asc, st).value.1.scanners) < Remaining(st.scanners)
  {
    hide First, AllAdvanced, AllStored;
    var k := First(asc, st.scanners).value;
    FirstIsSome(asc, st.scanners);
    AdvancingConsumes(st.scanners, k);
  }

  /** The rows that Scan returns until it returns none. */
  function Rows(asc: bool, st: State): (rows: seq<Row>)
    decreases Remaining(st.scanners)
  {
    if Next(asc, st).None? then []
    else
      NextConsumes(asc, st);
      [Next(asc, st).value.0] + Rows(asc, Next(asc, st).value.1)
  }

  /** Reads a cursor to its end. */
  method ReadAll(scanners: seq<Scanner>, ascending: bool) returns (rows: seq<Row>, err: bool)
    ensures rows == Rows(ascending, State(scanners, map[], Series([], [], 0)))
    ensures err <==> Broken(Final(ascending, State(scanners, map[], Series([], [], 0))).scanners)
  {
    hide Next, Broken;
    var cur := new MultiScannerCursor(scanners, ascending);
    ghost var all, final := Rows(ascending, cur.Snapshot()), Final(ascending, cur.Snapshot());
    rows := [];
    var more := true;
    while more
      invariant fresh(cur) && cur.ascending == ascending
      invariant more ==> !cur.err && all == rows + Rows(ascending, cur.Snapshot())
      invariant more ==> final == Final(ascending, cur.Snapshot())
      invariant !more ==> rows == all && (cur.err <==> Broken(final.scanners))
      decreases more, Remaining(cur.scanners)
    {
      ghost var st := cur.Snapshot();
      if Next(ascending, st).Some? { NextConsumes(ascending, st); }
      NextIsWhole(ascending, st);
      var row := cur.Scan();
      if row.None? { more := false; } else { rows := rows + [row.value]; }
    }
    err := cur.err;
  }

  lemma NextIsWhole(asc: bool, st: State)
    ensures Next(asc, st).Some? ==> !Broken(st.scanners)
  {
  }

  /** The state in which the rows end. */
  ghost function Final(asc: bool, st: State): (end: State)
    decreases Remaining(st.scanners)
  {
    if Next(asc, st).None? then st
    else
      NextConsumes(asc, st);
      Final(asc, Next(asc, st).value.1)
  }

  function KeyOf(row: Row): (k: Key) {
    Key(row.series.name, row.series.tags, row.time)
  }

  // ---------- the keys that should come ----------

  /** A point with this key is still to come. */
  ghost predicate Ahead(s: Scanner, k: Key) {
    exists j :: s.pos <= j < |s.points| && s.points[j].key == k
  }

  /** The scanner still has a point at or after this key. */
  ghost predicate Reaches(asc: bool, s: Scanner, k: Key) {
    exists j :: s.pos <= j < |s.points| && !Before(asc, s.points[j].key, k)
  }

  /** Some scanner has the key, and every scanner that will fail has not failed before it. */
  ghost predicate Due(asc: bool, ss: seq<Scanner>, k: Key) {
    && (exists i :: 0 <= i < |ss| && Ahead(ss[i], k))
    && (forall i :: 0 <= i < |ss| && ss[i].fails ==> Reaches(asc, ss[i], k))
  }

  /** Without failing scanners the due keys are simply the union. */
  lemma DueIsUnion(asc: bool, ss: seq<Scanner>, k: Key)
    requires forall i :: 0 <= i < |ss| ==> !ss[i].fails
    ensures Due(asc, ss, k) <==> exists i :: 0 <= i < |ss| && Ahead(ss[i], k)
  {
  }

  lemma AheadAfterHead(asc: bool, s: Scanner, first: Key, k: Key)
    requires WellScanner(asc, s) && (Peek(s).Some? ==> !Before(asc, Peek(s).value, first))
    ensures Ahead(Advanced(s, first), k) <==> Ahead(s, k) && k != first
    ensures Ahead(s, k) ==> k == first || Before(asc, first, k)
    ensures k == first && Ahead(s, k) ==> Peek(s) == Some(first)
  {
    hide Before;
    if Peek(s).Some? {
      var head := Peek(s).value;
      BeforeIsOrder(asc, head, first);
      forall j | s.pos <= j < |s.points|
        ensures s.points[j].key == first ==> j == s.pos
        ensures s.points[j].key == first || Before(asc, first, s.points[j].key)
      {
        var x := s.points[j].key;
        if j > s.pos {
          assert Before(asc, head, x);
          if head != first { BeforeChains(asc, first, head, x); }
          BeforeIsOrder(asc, first, x);
        }
      }
    }
  }

  lemma ReachesAfterHead(asc: bool, s: Scanner, first: Key, k: Key)
    requires WellScanner(asc, s) && Before(asc, first, k)
    ensures Reaches(asc, Advanced(s, first), k) <==> Reaches(asc, s, k)
  {
    hide Before;
    var t := Advanced(s, first);
    if Reaches(asc, s, k) {
      var j :| s.pos <= j < |s.points| && !Before(asc, s.points[j].key, k);
      assert s.points[j].key != first;
      assert t.pos <= j;
    }
  }

  /** The due keys are the first key and those due afterwards, which come after it. */
  lemma DueStep(asc: bool, ss: seq<Scanner>, first: Key, k: Key)
    requires AllWell(asc, ss) && !Broken(ss) && First(asc, ss) == Some(first)
    ensures Due(asc, ss, k) <==> k == first || Due(asc, AllAdvanced(ss, first), k)
    ensures Due(asc, AllAdvanced(ss, first), k) ==> Before(asc, first, k)
  {
    hide First, Before, Ahead, Reaches, Failed, Peek, Advanced, WellScanner;
    var tt := AllAdvanced(ss, first);
    HeadsAreNotBefore(asc, ss, first);
    forall i | 0 <= i < |ss|
      ensures Ahead(tt[i], k) <==> Ahead(ss[i], k) && k != first
      ensures Ahead(ss[i], k) ==> k == first || Before(asc, first, k)
      ensures tt[i].fails == ss[i].fails
      ensures k == first && ss[i].fails ==> Reaches(asc, ss[i], k)
      ensures Before(asc, first, k) ==> (Reaches(asc, tt[i], k) <==> Reaches(asc, ss[i], k))
    {
      AheadAfterHead(asc, ss[i], first, k);
      AdvancedFails(ss[i], first);
      if Before(asc, first, k) { ReachesAfterHead(asc, ss[i], first, k); }
      if ss[i].fails {
        assert !Failed(ss[i]);
        WholeReaches(asc, ss[i], first);
      }
    }
    if k == first {
      FirstIsSome(asc, ss);
      var i :| 0 <= i < |ss| && Peek(ss[i]) == Some(first);
      HeadIsAhead(ss[i], first);
    }
  }

  lemma HeadsAreNotBefore(asc: bool, ss: seq<Scanner>, first: Key)
    requires First(asc, ss) == Some(first)
    ensures forall i :: 0 <= i < |ss| && Peek(ss[i]).Some? ==> !Before(asc, Peek(ss[i]).value, first)
  {
    hide First, Before;
    forall i | 0 <= i < |ss| && Peek(ss[i]).Some? ensures !Before(asc, Peek(ss[i]).value, first) {
      FirstIsFirst(asc, ss, i);
    }
  }

  lemma AdvancedFails(s: Scanner, k: Key)
    ensures Advanced(s, k).fails == s.fails
  {
  }

  lemma WholeReaches(asc: bool, s: Scanner, first: Key)
    ensures s.fails && !Failed(s) && (Peek(s).Some? ==> !Before(asc, Peek(s).value, first)) ==> Reaches(asc, s, first)
  {
    hide Before;
    if s.fails && !Failed(s) { assert Peek(s) == Some(s.points[s.pos].key); }
  }

  lemma HeadIsAhead(s: Scanner, k: Key)
    ensures Peek(s) == Some(k) ==> Ahead(s, k)
  {
  }

  lemma NothingDue(asc: bool, st: State, k: Key)
    requires AllWell(asc, st.scanners) && Next(asc, st).None?
    ensures !Due(asc, st.scanners, k)
  {
    hide First, Before;
    var ss := st.scanners;
    if Broken(ss) {
      var i :| 0 <= i < |ss| && Failed(ss[i]);
      assert !Reaches(asc, ss[i], k);
    } else {
      forall i | 0 <= i < |ss| ensures !Ahead(ss[i], k) {
        if Peek(ss[i]).Some? { FirstIsFirst(asc, ss, i); }
      }
    }
  }

  lemma AdvancedIsWell(asc: bool, ss: seq<Scanner>, k: Key)
    requires AllWell(asc, ss)
    ensures AllWell(asc, AllAdvanced(ss, k))
  {
    hide Ordered;
  }

  lemma NextParts(asc: bool, st: State)
    requires Next(asc, st).Some?
    ensures var (row, st') := Next(asc, st).value;
            && !Broken(st.scanners) && First(asc, st.scanners) == Some(KeyOf(row))
            && st'.scanners == AllAdvanced(st.scanners, KeyOf(row)) && InSeries(KeyOf(row), st'.series)
  {
    hide First, AllStored, AllAdvanced, Broken;
  }

  // ---------- the merge ----------

  ghost predicate HasRow(rows: seq<Row>, k: Key) {
    exists i :: 0 <= i < |rows| && KeyOf(rows[i]) == k
  }

  /** A row comes for a key exactly when it is due. */
  lemma {:induction false} RowsAreTheDueKeys(asc: bool, st: State, k: Key)
    requires AllWell(asc, st.scanners)
    ensures HasRow(Rows(asc, st), k) <==> Due(asc, st.scanners, k)
    decreases Remaining(st.scanners)
  {
    hide Next, Due, KeyOf, AllAdvanced, AllWell, Broken, First, Before;
    var next := Next(asc, st);
    if next.None? {
      NothingDue(asc, st, k);
    } else {
      var (row, st') := next.value;
      NextConsumes(asc, st);
      NextParts(asc, st);
      AdvancedIsWell(asc, st.scanners, KeyOf(row));
      RowsAreTheDueKeys(asc, st', k);
      DueStep(asc, st.scanners, KeyOf(row), k);
      HasRowSplits(row, Rows(asc, st'), k);
    }
  }

  lemma HasRowSplits(row: Row, rows: seq<Row>, k: Key)
    ensures HasRow([row] + rows, k) <==> KeyOf(row) == k || HasRow(rows, k)
  {
    hide KeyOf;
    var all := [row] + rows;
    if HasRow(rows, k) {
      var i :| 0 <= i < |rows| && KeyOf(rows[i]) == k;
      assert all[i + 1] == rows[i];
    }
    assert all[0] == row;
  }

  /** The rows come strictly in order, so no key comes twice. */
  lemma {:induction false} RowsAreOrdered(asc: bool, st: State)
    requires AllWell(asc, st.scanners)
    ensures forall i, j :: 0 <= i < j < |Rows(asc, st)| ==>
              Before(asc, KeyOf(Rows(asc, st)[i]), KeyOf(Rows(asc, st)[j]))
    decreases Remaining(st.scanners)
  {
    hide Next, Due, KeyOf, AllAdvanced, AllWell, Broken, First, Before;
    var next := Next(asc, st);
    if next.Some? {
      var (row, st') := next.value;
      NextConsumes(asc, st);
      NextParts(asc, st);
      AdvancedIsWell(asc, st.scanners, KeyOf(row));
      RowsAreOrdered(asc, st');
      var rest := Rows(asc, st');
      forall j | 0 <= j < |rest| ensures Before(asc, KeyOf(row), KeyOf(rest[j])) {
        RowsAreTheDueKeys(asc, st', KeyOf(rest[j]));
        DueStep(asc, st.scanners, KeyOf(row), KeyOf(rest[j]));
      }
    }
  }

  /** The cursor ends in an error exactly when some scanner fails. */
  lemma {:induction false} ErrorIffFailing(asc: bool, st: State)
    requires AllWell(asc, st.scanners)
    ensures Broken(Final(asc, st).scanners) <==> exists i :: 0 <= i < |st.scanners| && st.scanners[i].fails
    decreases Remaining(st.scanners)
  {
    hide Next, AllWell, First, Before;
    var next := Next(asc, st);
    if next.None? {
      EndIsExhausted(asc, st);
    } else {
      var (row, st') := next.value;
      NextConsumes(asc, st);
      NextParts(asc, st);
      AdvancedIsWell(asc, st.scanners, KeyOf(row));
      ErrorIffFailing(asc, st');
      assert forall i :: 0 <= i < |st.scanners| ==> st'.scanners[i].fails == st.scanners[i].fails;
    }
  }

  lemma EndIsExhausted(asc: bool, st: State)
    requires Next(asc, st).None?
    ensures Broken(st.scanners) <==> exists i :: 0 <= i < |st.scanners| && st.scanners[i].fails
  {
    hide First, Before;
    var ss := st.scanners;
    if !Broken(ss) {
      forall i | 0 <= i < |ss| ensures !ss[i].fails {
        if Peek(ss[i]).Some? { FirstIsFirst(asc, ss, i); }
      }
    }
  }
}
