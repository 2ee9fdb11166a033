/** Merging scanners into rows: scannerCursorBase and multiScannerCursor of query/cursor.go, over
    the iterator scanners of query/iterator.gen.go. */
module Cursors {
  import opened Optional
  import opened Bytes

  /** Where a point belongs: its series, by name and tag ID, and its time. */
  datatype Key = Key(name: bytes, tags: bytes, time: int)

  /** A point; a nil point has no value. */
  datatype Pt = Pt(key: Key, value: Option<int>)

  /** SkipDefault, or a fill value, which may be null. */
  datatype Default = Skip | Fill(value: Option<int>)

  /** A scanner over an iterator that yields points and then ends or fails; pos points have been
      read. */
  datatype Scanner = Scanner(column: string, default: Default, points: seq<Pt>, pos: nat, fails: bool)

  type Values = map<string, Option<int>>

  /** Series.id counts the series that a cursor has come across. */
  datatype Series = Series(name: bytes, tags: bytes, id: nat)

  datatype Row = Row(time: int, series: Series, values: Values)

  // ---------- the order of keys ----------

  predicate SameSeries(a: Key, b: Key) {
    a.name == b.name && a.tags == b.tags
  }

  predicate KeyLess(a: Key, b: Key) {
    || Less(a.name, b.name)
    || (a.name == b.name && Less(a.tags, b.tags))
    || (a.name == b.name && a.tags == b.tags && a.time < b.time)
  }

  /** a comes before b in the direction of the scan. */
  predicate Before(ascending: bool, a: Key, b: Key) {
    if ascending then KeyLess(a, b) else KeyLess(b, a)
  }

  lemma BeforeIsOrder(asc: bool, a: Key, b: Key)
    ensures a == b || Before(asc, a, b) || Before(asc, b, a)
    ensures Before(asc, a, b) ==> a != b && !Before(asc, b, a)
  {
    LessIsOrder(a.name, b.name);
    LessIsOrder(a.tags, b.tags);
  }

  lemma LessIsOrder(a: bytes, b: bytes)
    ensures a == b || Less(a, b) || Less(b, a)
    ensures Less(a, b) ==> a != b && !Less(b, a)
  {
    LessTotal(a, b);
    if Less(a, b) {
      LessIrreflexive(a);
      if Less(b, a) { LessTransitive(a, b, a); }
    }
  }

  lemma LessChains(a: bytes, b: bytes, c: bytes)
    ensures Less(a, b) && Less(b, c) ==> Less(a, c)
  {
    if Less(a, b) && Less(b, c) { LessTransitive(a, b, c); }
  }

  lemma KeyLessIsTransitive(a: Key, b: Key, c: Key)
    requires KeyLess(a, b) && KeyLess(b, c)
    ensures KeyLess(a, c)
    ensures SameSeries(a, c) ==> SameSeries(a, b)
  {
    LessChains(a.name, b.name, c.name);
    LessChains(a.tags, b.tags, c.tags);
    LessIsOrder(a.name, c.name);
    LessIsOrder(a.tags, c.tags);
  }

  /** The order is transitive and keeps a series together. */
  lemma BeforeChains(asc: bool, a: Key, b: Key, c: Key)
    requires Before(asc, a, b) && Before(asc, b, c)
    ensures Before(asc, a, c)
    ensures SameSeries(a, c) ==> SameSeries(a, b)
  {
    if asc { KeyLessIsTransitive(a, b, c); } else { KeyLessIsTransitive(c, b, a); }
  }

  // ---------- scanners ----------

  predicate Ordered(asc: bool, pts: seq<Pt>) {
    forall i, j :: 0 <= i < j < |pts| ==> Before(asc, pts[i].key, pts[j].key)
  }

  predicate WellScanner(asc: bool, s: Scanner) {
    s.pos <= |s.points| && Ordered(asc, s.points)
  }

  /** The iterator has returned an error. */
  predicate Failed(s: Scanner) {
    s.pos >= |s.points| && s.fails
  }

  /** Peek: None stands for ZeroTime. */
  function Peek(s: Scanner): (k: Option<Key>)
    ensures k.Some? ==> s.pos < |s.points| && k.value == s.points[s.pos].key
  {
    if s.pos < |s.points| then Some(s.points[s.pos].key) else None
  }

  function UseDefault(s: Scanner, m: Values): (r: Values) {
    if s.column == "" || s.default == Skip then m else m[s.column := s.default.value]
  }

  /** ScanAt on the map. */
  function Stored(s: Scanner, k: Key, m: Values): (r: Values) {
    if Peek(s) != Some(k) then (if Failed(s) then m else UseDefault(s, m))
    else
      var v := s.points[s.pos].value;
      if s.column == "" then m else if v.None? then UseDefault(s, m) else m[s.column := v]
  }

  /** ScanAt on the scanner: exactly a matching point is consumed. */
  function Advanced(s: Scanner, k: Key): (r: Scanner) {
    if Peek(s) == Some(k) then s.(pos := s.pos + 1) else s
  }

  // ---------- one row ----------

  datatype State = State(scanners: seq<Scanner>, values: Values, series: Series)

  predicate Broken(ss: seq<Scanner>) {
    exists i :: 0 <= i < |ss| && Failed(ss[i])
  }

  /** The first of the keys that the scanners are at. */
  function First(asc: bool, ss: seq<Scanner>): (k: Option<Key>) {
    if ss == [] then None
    else
      var k, head := First(asc, ss[..|ss| - 1]), Peek(ss[|ss| - 1]);
      if head.None? then k else if k.None? || Before(asc, head.value, k.value) then head else k
  }

  function AllStored(ss: seq<Scanner>, k: Key, m: Values): (r: Values) {
    if ss == [] then m else Stored(ss[|ss| - 1], k, AllStored(ss[..|ss| - 1], k, m))
  }

  function AllAdvanced(ss: seq<Scanner>, k: Key): (r: seq<Scanner>)
    ensures |r| == |ss| && forall i :: 0 <= i < |ss| ==> r[i] == Advanced(ss[i], k)
  {
    seq(|ss|, i requires 0 <= i < |ss| => Advanced(ss[i], k))
  }

  predicate InSeries(k: Key, series: Series) {
    k.name == series.name && k.tags == series.tags
  }

  /** Scan: the next row and the state after it, or None at the end or on an error. */
  function Next(asc: bool, st: State): (r: Option<(Row, State)>) {
    var first := First(asc, st.scanners);
    if Broken(st.scanners) || first.None? then None
    else
      var k := first.value;
      var m := AllStored(st.scanners, k, if InSeries(k, st.series) then st.values else map[]);
      var series := if InSeries(k, st.series) then st.series else Series(k.name, k.tags, st.series.id + 1);
      Some((Row(k.time, series, m), State(AllAdvanced(st.scanners, k), m, series)))
  }

  class MultiScannerCursor {
    const ascending: bool
    var scanners: seq<Scanner>
    var m: Values
    var series: Series
    var err: bool

    constructor (scanners: seq<Scanner>, ascending: bool)
      ensures this.ascending == ascending && !err
      ensures Snapshot() == State(scanners, map[], Series([], [], 0))
    {
      this.scanners, this.ascending, err := scanners, ascending, false;
      m, series := map[], Series([], [], 0);
    }

    ghost function Snapshot(): (st: State)
      reads this
    {
      State(scanners, m, series)
    }

    /** The loop that looks for the next key. */
    method FirstKey() returns (k: Option<Key>)
      modifies this`err
      ensures Broken(scanners) ==> err && k == None
      ensures !Broken(scanners) ==> err == old(err) && k == First(ascending, scanners)
    {
      k := None;
      for i := 0 to |scanners|
        invariant err == old(err) && k == First(ascending, scanners[..i])
        invariant forall j :: 0 <= j < i ==> !Failed(scanners[j])
      {
        assert scanners[..i + 1][..i] == scanners[..i];
        var head := Peek(scanners[i]);
        if head.None? {
          if Failed(scanners[i]) {
            err := true;
            return None;
          }
          continue;
        }
        if k.None? {
          k := head;
          continue;
        }
        if Before(ascending, head.value, k.value) { k := head; }
      }
      assert scanners[..|scanners|] == scanners;
    }

    /** The loop that scans every scanner into the map. */
    method ScanAll(k: Key)
      modifies this`scanners, this`m
      ensures scanners == AllAdvanced(old(scanners), k) && m == AllStored(old(scanners), k, old(m))
    {
      hide Advanced, Stored;
      ghost var given := scanners;
      for i := 0 to |scanners|
        invariant |scanners| == |given| && m == AllStored(given[..i], k, old(m))
        invariant forall j :: 0 <= j < i ==> scanners[j] == Advanced(given[j], k)
        invariant forall j :: i <= j < |given| ==> scanners[j] == given[j]
      {
        assert given[..i + 1][..i] == given[..i];
        m, scanners := Stored(scanners[i], k, m), scanners[i := Advanced(scanners[i], k)];
      }
      assert given[..|given|] == given;
    }

    method Scan() returns (row: Option<Row>)
      modifies this
      ensures var next := Next(ascending, old(Snapshot()));
              if next.None? then row == None && Snapshot() == old(Snapshot())
              else row == Some(next.value.0) && Snapshot() == next.value.1
      ensures err == (old(err) || Broken(old(scanners)))
    {
      hide First, AllStored, AllAdvanced, Broken;
      row := None;
      var k := FirstKey();
      if k.None? { return; }
      if k.value.name != series.name || k.value.tags != series.tags { m := map[]; }
      ScanAll(k.value);
      if k.value.name != series.name || k.value.tags != series.tags {
        series := Series(k.value.name, k.value.tags, series.id + 1);
      }
      row := Some(Row(k.value.time, series, m));
    }
  }

  // ---------- the first key ----------

  lemma {:induction false} FirstIsFirst(asc: bool, ss: seq<Scanner>, i: nat)
    requires i < |ss| && Peek(ss[i]).Some?
    ensures First(asc, ss).Some? && !Before(asc, Peek(ss[i]).value, First(asc, ss).value)
  {
    var init, head := ss[..|ss| - 1], Peek(ss[|ss| - 1]);
    var k := First(asc, init);
    if i < |init| { FirstIsFirst(asc, init, i); }
    if head.Some? {
      BeforeIsOrder(asc, head.value, head.value);
      if k.Some? && Before(asc, head.value, k.value) && i < |init| {
        NotAfterEarlier(asc, Peek(ss[i]).value, k.value, head.value);
      }
    }
  }

  lemma NotAfterEarlier(asc: bool, a: Key, k: Key, head: Key)
    requires !Before(asc, a, k) && Before(asc, head, k)
    ensures !Before(asc, a, head)
  {
    if Before(asc, a, head) { BeforeChains(asc, a, head, k); }
  }

  lemma {:induction false} FirstIsSome(asc: bool, ss: seq<Scanner>)
    requires First(asc, ss).Some?
    ensures AtSome(ss, First(asc, ss).value)
  {
    var init, head := ss[..|ss| - 1], Peek(ss[|ss| - 1]);
    var k := First(asc, ss);
    if k == head {
      assert Peek(ss[|ss| - 1]) == k;
    } else {
      FirstIsSome(asc, init);
      var i :| 0 <= i < |init| && Peek(init[i]) == k;
      assert Peek(ss[i]) == k;
    }
  }

  predicate AtSome(ss: seq<Scanner>, k: Key) {
    exists i :: 0 <= i < |ss| && Peek(ss[i]) == Some(k)
  }
}
