/** Cutting an oversized point into points with fewer fields: String, StringSize and Split of
    models/points.go. */
module PointSplits {
  import opened Bytes
  import opened Int64
  import opened LineScan
  import opened Fields
  import opened KeyGrammar
  import opened KeyRoundTrip
  import opened Sequences

  /** time.Time: Go's zero time, or nanoseconds since 1970. */
  datatype Stamp = NoTime | Nanos(t: int64)

  datatype Point = Point(key: bytes, fields: bytes, time: Stamp)

  // ---------- String and StringSize ----------

  function Digits(n: nat): (d: bytes) {
    if n < 10 then [(48 + n) as byte] else Digits(n / 10) + [(48 + n % 10) as byte]
  }

  /** strconv.FormatInt(t, 10) */
  function FormatInt(t: int): (d: bytes) {
    if t < 0 then [45] + Digits(-t) else Digits(t)
  }

  /** String */
  function Text(p: Point): (s: bytes) {
    p.key + [SPACE] + p.fields + (if p.time.NoTime? then [] else [SPACE] + FormatInt(p.time.t))
  }

  function Power(k: nat): (r: int) {
    if k == 0 then 1 else 10 * Power(k - 1)
  }

  lemma {:induction false} DigitCount(n: nat, k: nat)
    requires Power(k) <= n < Power(k + 1)
    ensures |Digits(n)| == k + 1
  {
    if k > 0 { DigitCount(n / 10, k - 1); }
  }

  lemma LowestHasTwentyCharacters()
    ensures |FormatInt(MIN)| == 20
  {
    assert Power(4) == 10_000 && Power(8) == Power(4) * 10_000 && Power(12) == Power(8) * 10_000;
    assert Power(16) == Power(12) * 10_000 && Power(18) == Power(16) * 100 && Power(19) == Power(18) * 10;
    DigitCount(-MIN, 18);
  }

  /** What StringSize counts: the length of the text, but 18 less at the lowest time, whose
      negation wraps to itself. */
  function SizeOf(p: Point): (size: int) {
    |Text(p)| - if p.time == Nanos(MIN) then 18 else 0
  }

  method StringSize(p: Point) returns (size: int)
    ensures size == SizeOf(p)
    ensures size == |Text(p)| <==> p.time != Nanos(MIN)
  {
    size := |p.key| + |p.fields| + 1;
    if p.time != NoTime {
      var digits := CountDigits(p.time.t);
      size := size + digits + 1;
    }
  }

  method CountDigits(time: int64) returns (digits: int)
    ensures digits == |FormatInt(time)| - if time == MIN then 18 else 0
  {
    digits := 1;
    var t := time;
    if t < 0 {
      digits := digits + 1;
      t := Wrap(-t);
    }
    while t > 9
      invariant time == MIN ==> t == MIN && digits == 2
      invariant time != MIN ==> t >= 0 && digits + |Digits(t)| == |FormatInt(time)| + 1
      decreases t
    {
      digits := digits + 1;
      t := Quotient(t, 10);
    }
    if time == MIN { LowestHasTwentyCharacters(); }
  }

  // ---------- the fields of a field section ----------

  /** The field at cur has an equals sign. */
  predicate HasValue(buf: bytes, cur: nat) {
    cur < |buf| && NextStop(buf, cur, One(EQUALS)) < |buf|
  }

  function FieldEnd(buf: bytes, cur: nat): (e: nat)
    requires HasValue(buf, cur)
    ensures cur < e <= |buf| && (e < |buf| ==> buf[e] == COMMA)
  {
    ValueEnd(buf, NextStop(buf, cur, One(EQUALS)) + 1, false)
  }

  /** Reading one field after another from cur, one of them ends at stop. */
  predicate Reaches(buf: bytes, cur: nat, stop: nat)
    decreases |buf| - cur
  {
    HasValue(buf, cur) && (FieldEnd(buf, cur) == stop || Reaches(buf, FieldEnd(buf, cur) + 1, stop))
  }

  function FieldsBetween(buf: bytes, cur: nat, stop: nat): (fs: seq<bytes>)
    requires Reaches(buf, cur, stop)
    ensures |fs| >= 1
    decreases |buf| - cur
  {
    var e := FieldEnd(buf, cur);
    [buf[cur..e]] + if e == stop then [] else FieldsBetween(buf, e + 1, stop)
  }

  /** Every field has an equals sign and no comma is left over at the end. */
  predicate Fielded(buf: bytes) {
    Reaches(buf, 0, |buf|)
  }

  function FieldList(buf: bytes): (fs: seq<bytes>)
    requires Fielded(buf)
  {
    FieldsBetween(buf, 0, |buf|)
  }

  lemma {:induction false} ReachesInOrder(buf: bytes, cur: nat, stop: nat)
    requires Reaches(buf, cur, stop)
    ensures cur < stop <= |buf| && (stop < |buf| ==> buf[stop] == COMMA)
    decreases |buf| - cur
  {
    var e := FieldEnd(buf, cur);
    if e != stop { ReachesInOrder(buf, e + 1, stop); }
  }

  lemma ReachesParts(buf: bytes, cur: nat, stop: nat)
    requires Reaches(buf, cur, stop)
    ensures HasValue(buf, cur) && FieldEnd(buf, cur) <= stop <= |buf| && (stop < |buf| ==> buf[stop] == COMMA)
    ensures var e := FieldEnd(buf, cur);
            e != stop ==> Reaches(buf, e + 1, stop) && e + 1 < stop && buf[e] == COMMA
  {
    hide HasValue, FieldEnd;
    ReachesInOrder(buf, cur, stop);
    var e := FieldEnd(buf, cur);
    if e != stop { ReachesInOrder(buf, e + 1, stop); }
  }

  lemma ReachesByField(buf: bytes, cur: nat, stop: nat)
    requires HasValue(buf, cur)
    requires FieldEnd(buf, cur) == stop || Reaches(buf, FieldEnd(buf, cur) + 1, stop)
    ensures Reaches(buf, cur, stop)
    ensures var e := FieldEnd(buf, cur);
            FieldsBetween(buf, cur, stop) == [buf[cur..e]] + if e == stop then [] else FieldsBetween(buf, e + 1, stop)
  {
    hide HasValue, FieldEnd;
  }

  /** Fields up to a, then fields from a + 1 up to b. */
  lemma {:induction false} ReachesOn(buf: bytes, cur: nat, a: nat, b: nat)
    requires Reaches(buf, cur, a) && Reaches(buf, a + 1, b)
    ensures Reaches(buf, cur, b)
    ensures FieldsBetween(buf, cur, b) == FieldsBetween(buf, cur, a) + FieldsBetween(buf, a + 1, b)
    decreases |buf| - cur
  {
    hide HasValue, FieldEnd, Reaches, FieldsBetween;
    ReachesParts(buf, cur, a);
    ReachesParts(buf, a + 1, b);
    var e := FieldEnd(buf, cur);
    if e != a { ReachesOn(buf, e + 1, a, b); }
    ReachesByField(buf, cur, a);
    ReachesByField(buf, cur, b);
  }

  lemma SliceAt(buf: bytes, lo: nat, hi: nat, i: nat)
    requires lo <= i < hi <= |buf|
    ensures buf[lo..hi][i - lo] == buf[i]
  {
  }

  /** What ValueEnd does with one byte of a slice that ends at a comma or with the buffer. */
  lemma SameByte(buf: bytes, lo: nat, hi: nat, i: nat)
    requires lo <= i < hi <= |buf| && (hi < |buf| ==> buf[hi] == COMMA)
    ensures buf[lo..hi][i - lo] == buf[i] && (EscapePair(buf[lo..hi], i - lo) <==> EscapePair(buf, i))
    ensures EscapePair(buf, i) ==> i + 2 <= hi
  {
    SliceAt(buf, lo, hi, i);
    if i + 1 < hi { SliceAt(buf, lo, hi, i + 1); }
  }

  lemma ValueEndStep(buf: bytes, i: nat, quoted: bool)
    requires i < |buf|
    ensures ValueEnd(buf, i, quoted) ==
              if EscapePair(buf, i) then ValueEnd(buf, i + 2, quoted)
              else if buf[i] == QUOTE then ValueEnd(buf, i + 1, !quoted)
              else if buf[i] == COMMA && !quoted then i
              else ValueEnd(buf, i + 1, quoted)
  {
    hide EscapePair;
  }

  lemma {:induction false} ValueEndInSlice(buf: bytes, lo: nat, hi: nat, i: nat, quoted: bool)
    requires lo <= i <= |buf| && ValueEnd(buf, i, quoted) <= hi <= |buf| && (hi < |buf| ==> buf[hi] == COMMA)
    ensures i <= hi && ValueEnd(buf[lo..hi], i - lo, quoted) == ValueEnd(buf, i, quoted) - lo
    decreases |buf| - i
  {
    hide ValueEnd, EscapePair;
    if i < hi {
      SameByte(buf, lo, hi, i);
      ValueEndStep(buf, i, quoted);
      ValueEndStep(buf[lo..hi], i - lo, quoted);
      if EscapePair(buf, i) {
        ValueEndInSlice(buf, lo, hi, i + 2, quoted);
      } else if buf[i] == QUOTE {
        ValueEndInSlice(buf, lo, hi, i + 1, !quoted);
      } else if buf[i] != COMMA || quoted {
        ValueEndInSlice(buf, lo, hi, i + 1, quoted);
      }
    }
  }

  /** Scanning for the equals sign inside a slice finds the same one. */
  lemma StopInSlice(buf: bytes, lo: nat, hi: nat, cur: nat)
    requires lo <= cur <= |buf| && NextStop(buf, cur, One(EQUALS)) < hi <= |buf|
    requires cur > 0 ==> buf[cur - 1] == COMMA
    ensures NextStop(buf[lo..hi], cur - lo, One(EQUALS)) == NextStop(buf, cur, One(EQUALS)) - lo
  {
    var k, s := NextStop(buf, cur, One(EQUALS)), buf[lo..hi];
    hide NextStop;
    forall x | cur <= x <= k ensures StopAt(s, x - lo, One(EQUALS)) <==> StopAt(buf, x, One(EQUALS)) {
      SliceAt(buf, lo, hi, x);
      if x > lo { SliceAt(buf, lo, hi, x - 1); }
    }
    forall x | cur - lo <= x < k - lo ensures !StopAt(s, x, One(EQUALS)) {
      assert !StopAt(buf, x + lo, One(EQUALS));
      assert StopAt(s, x + lo - lo, One(EQUALS)) <==> StopAt(buf, x + lo, One(EQUALS));
    }
    NextStopUnique(s, cur - lo, One(EQUALS), k - lo);
  }

  /** A field keeps its end in every slice that starts after a comma and ends at a comma or at
      the end of the buffer. */
  lemma FieldEndInSlice(buf: bytes, lo: nat, hi: nat, cur: nat)
    requires lo <= cur && HasValue(buf, cur) && FieldEnd(buf, cur) <= hi <= |buf|
    requires hi < |buf| ==> buf[hi] == COMMA
    requires cur > 0 ==> buf[cur - 1] == COMMA
    ensures HasValue(buf[lo..hi], cur - lo) && FieldEnd(buf[lo..hi], cur - lo) == FieldEnd(buf, cur) - lo
  {
    hide ValueEnd, NextStop;
    StopInSlice(buf, lo, hi, cur);
    ValueEndInSlice(buf, lo, hi, NextStop(buf, cur, One(EQUALS)) + 1, false);
  }

  lemma {:induction false} FieldsInSlice(buf: bytes, lo: nat, hi: nat, cur: nat)
    requires lo <= cur <= hi <= |buf| && Reaches(buf, cur, hi) && (cur > 0 ==> buf[cur - 1] == COMMA)
    ensures Reaches(buf[lo..hi], cur - lo, hi - lo)
    ensures FieldsBetween(buf[lo..hi], cur - lo, hi - lo) == FieldsBetween(buf, cur, hi)
    decreases |buf| - cur
  {
    hide HasValue, FieldEnd, Reaches, FieldsBetween;
    ReachesParts(buf, cur, hi);
    var e := FieldEnd(buf, cur);
    var s := buf[lo..hi];
    if e != hi { FieldsInSlice(buf, lo, hi, e + 1); }
    FieldEndInSlice(buf, lo, hi, cur);
    ReachesByField(buf, cur, hi);
    ReachesByField(s, cur - lo, hi - lo);
    SliceOfSlice(buf, lo, hi, cur, e);
  }

  lemma SliceOfSlice(buf: bytes, lo: nat, hi: nat, i: nat, j: nat)
    requires lo <= i <= j <= hi <= |buf|
    ensures buf[lo..hi][i - lo..j - lo] == buf[i..j]
  {
    var s := buf[lo..hi];
    assert forall k :: 0 <= k < |s| ==> s[k] == buf[lo + k];
    assert forall k :: 0 <= k < j - i ==> s[i - lo..j - lo][k] == s[i - lo + k] == buf[i..j][k];
  }

  // ---------- printed field sections ----------

  function FieldTexts(fs: seq<RawField>): (r: seq<bytes>)
    ensures |r| == |fs| && forall i :: 0 <= i < |fs| ==> r[i] == FieldText(fs[i])
  {
    seq(|fs|, i requires 0 <= i < |fs| => FieldText(fs[i]))
  }

  lemma PrintedFieldEnds(buf: bytes, cur: nat, f: RawField)
    requires WellField(f) && At(buf, cur, FieldText(f)) && (cur == 0 || buf[cur - 1] == COMMA)
    requires var e := cur + |FieldText(f)|; e == |buf| || buf[e] == COMMA
    ensures HasValue(buf, cur) && FieldEnd(buf, cur) == cur + |FieldText(f)|
  {
    hide At, NextStop, ValueEnd, ValueText, WellValue, Free;
    var k, v := f.key, ValueText(f.value);
    AtSplit(buf, cur, k, [EQUALS] + v);
    AtSplit(buf, cur + |k|, [EQUALS], v);
    AtByte(buf, cur + |k|, EQUALS);
    AtLast(buf, cur, k);
    assert StopAt(buf, cur + |k|, One(EQUALS));
    ScanExact(buf, cur, k, One(EQUALS));
    ValueIsScanned(buf, cur + |k| + 1, f.value);
  }

  lemma AtLast(buf: bytes, i: nat, s: bytes)
    requires At(buf, i, s)
    ensures i + |s| <= |buf| && (s != [] ==> buf[i + |s| - 1] == s[|s| - 1])
  {
    if s != [] { assert buf[i..i + |s|][|s| - 1] == s[|s| - 1]; }
  }

  lemma {:induction false} PrintedReaches(buf: bytes, cur: nat, fs: seq<RawField>)
    requires fs != [] && forall i :: 0 <= i < |fs| ==> WellField(fs[i])
    requires At(buf, cur, FieldsText(fs)) && cur + |FieldsText(fs)| == |buf| && (cur == 0 || buf[cur - 1] == COMMA)
    ensures Reaches(buf, cur, |buf|) && FieldsBetween(buf, cur, |buf|) == FieldTexts(fs)
    decreases |fs|
  {
    hide At, HasValue, FieldEnd, WellField, FieldText, Reaches, FieldsBetween, FieldTexts;
    var t := FieldText(fs[0]);
    if |fs| == 1 {
      PrintedFieldEnds(buf, cur, fs[0]);
      assert FieldTexts(fs) == [t];
    } else {
      var rest := fs[1..];
      AtSplit(buf, cur, t, [COMMA] + FieldsText(rest));
      AtSplit(buf, cur + |t|, [COMMA], FieldsText(rest));
      AtByte(buf, cur + |t|, COMMA);
      PrintedFieldEnds(buf, cur, fs[0]);
      assert forall i :: 0 <= i < |rest| ==> rest[i] == fs[i + 1];
      PrintedReaches(buf, cur + |t| + 1, rest);
      ReachesParts(buf, cur + |t| + 1, |buf|);
      assert FieldTexts(fs) == [t] + FieldTexts(rest);
    }
    ReachesByField(buf, cur, |buf|);
    AtText(buf, cur, t);
  }

  lemma AtText(buf: bytes, i: nat, s: bytes)
    ensures At(buf, i, s) ==> i + |s| <= |buf| && buf[i..i + |s|] == s
  {
  }

  /** Every printed field list is a well-formed section, and its fields are the printed ones. */
  lemma PrintedIsFielded(fs: seq<RawField>)
    requires fs != [] && forall i :: 0 <= i < |fs| ==> WellField(fs[i])
    ensures Fielded(FieldsText(fs)) && FieldList(FieldsText(fs)) == FieldTexts(fs)
  {
    var buf := FieldsText(fs);
    assert buf[0..|buf|] == buf;
    PrintedReaches(buf, 0, fs);
  }

  // ---------- Split ----------

  predicate AllFielded(points: seq<Point>) {
    forall i :: 0 <= i < |points| ==> Fielded(points[i].fields)
  }

  /** All fields of the points, in order. */
  function AllFields(points: seq<Point>): (fs: seq<bytes>)
    requires AllFielded(points)
  {
    if points == [] then [] else AllFields(points[..|points| - 1]) + FieldList(points[|points| - 1].fields)
  }

  /** The points' field sections joined by commas. */
  function Joined(points: seq<Point>): (s: bytes) {
    if points == [] then []
    else if |points| == 1 then points[0].fields
    else Joined(points[..|points| - 1]) + [COMMA] + points[|points| - 1].fields
  }

  /** A piece of p that has p's key and time, and one field or no more than the size asked for. */
  predicate GoodPiece(p: Point, piece: Point, size: int) {
    && piece.key == p.key && piece.time == p.time && Fielded(piece.fields)
    && (|FieldList(piece.fields)| == 1 || SizeOf(piece) <= size)
  }

  predicate GoodPieces(p: Point, pieces: seq<Point>, size: int) {
    forall i :: 0 <= i < |pieces| ==> GoodPiece(p, pieces[i], size)
  }

  /** The pieces cover the fields before start, which is just after a comma, or zero. */
  ghost predicate SplitSoFar(p: Point, pieces: seq<Point>, size: int, start: nat) {
    && GoodPieces(p, pieces, size)
    && (start == 0 <==> pieces == [])
    && (start > 0 ==>
      && start <= |p.fields| + 1 && Reaches(p.fields, 0, start - 1)
      && Joined(pieces) == p.fields[..start - 1]
      && AllFields(pieces) == FieldsBetween(p.fields, 0, start - 1))
  }

  /** The piece being built holds the fields from start to just before cur, and at most room
      bytes if it holds more than one field. */
  ghost predicate Building(p: Point, room: int, start: nat, cur: nat) {
    cur > start ==>
      && Reaches(p.fields, start, cur - 1)
      && (|FieldsBetween(p.fields, start, cur - 1)| == 1 || cur - 1 - start <= room)
  }

  /** Room for fields: what is left of size after the key, the time and two spaces. */
  function Room(p: Point, size: int): (room: int)
    requires p.time.Nanos?
  {
    size - (|p.key| + |FormatInt(p.time.t)| + 2)
  }

  lemma RoomIsEnough(p: Point, size: int, fields: bytes)
    requires p.time.Nanos? && |fields| <= Room(p, size)
    ensures SizeOf(Point(p.key, fields, p.time)) <= size
  {
  }

  /** Cuts off the piece from start to just before cur. */
  method CutOff(p: Point, pieces: seq<Point>, size: int, start: nat, cur: nat) returns (more: seq<Point>)
    requires p.time.Nanos? && SplitSoFar(p, pieces, size, start)
    requires cur > start && Building(p, Room(p, size), start, cur)
    ensures SplitSoFar(p, more, size, cur)
  {
    hide SplitSoFar, Building, Room;
    CutKeepsSplit(p, pieces, size, start, cur);
    more := pieces + [Point(p.key, p.fields[start..cur - 1], p.time)];
  }

  lemma CutIsGood(p: Point, size: int, start: nat, cur: nat)
    requires p.time.Nanos? && cur > start && Building(p, Room(p, size), start, cur)
    requires start > 0 ==> Reaches(p.fields, 0, start - 1)
    ensures start <= cur - 1 <= |p.fields| && Fielded(p.fields[start..cur - 1])
    ensures start > 0 ==> start - 1 < |p.fields| && p.fields[start - 1] == COMMA
    ensures GoodPiece(p, Point(p.key, p.fields[start..cur - 1], p.time), size)
    ensures FieldList(p.fields[start..cur - 1]) == FieldsBetween(p.fields, start, cur - 1)
  {
    hide SizeOf, Reaches, FieldsBetween, Room;
    var buf := p.fields;
    ReachesInOrder(buf, start, cur - 1);
    if start > 0 { ReachesInOrder(buf, 0, start - 1); }
    FieldsInSlice(buf, start, cur - 1, start);
    var piece := Point(p.key, buf[start..cur - 1], p.time);
    if |piece.fields| <= Room(p, size) { RoomIsEnough(p, size, piece.fields); }
  }

  lemma OneMorePiece(pieces: seq<Point>, piece: Point)
    requires AllFielded(pieces) && Fielded(piece.fields)
    ensures var more := pieces + [piece];
            && AllFielded(more) && AllFields(more) == AllFields(pieces) + FieldList(piece.fields)
            && Joined(more) == if pieces == [] then piece.fields else Joined(pieces) + [COMMA] + piece.fields
  {
    hide FieldList, Fielded;
    Append(pieces, piece);
  }

  lemma JoinsUp(buf: bytes, start: nat, end: nat)
    requires 0 < start <= end <= |buf| && buf[start - 1] == COMMA
    ensures buf[..end] == buf[..start - 1] + [COMMA] + buf[start..end]
  {
  }

  lemma CutKeepsSplit(p: Point, pieces: seq<Point>, size: int, start: nat, cur: nat)
    requires p.time.Nanos? && SplitSoFar(p, pieces, size, start)
    requires cur > start && Building(p, Room(p, size), start, cur)
    ensures start <= cur - 1 <= |p.fields|
    ensures SplitSoFar(p, pieces + [Point(p.key, p.fields[start..cur - 1], p.time)], size, cur)
  {
    hide SizeOf, Reaches, FieldsBetween, Room, Joined, AllFields, Fielded, FieldList, GoodPiece;
    CutIsGood(p, size, start, cur);
    var piece := Point(p.key, p.fields[start..cur - 1], p.time);
    PiecesAreFielded(p, pieces, size);
    OneMorePiece(pieces, piece);
    if start > 0 {
      ReachesOn(p.fields, 0, start - 1, cur - 1);
      JoinsUp(p.fields, start, cur - 1);
    } else {
      NothingYet();
    }
  }

  lemma PiecesAreFielded(p: Point, pieces: seq<Point>, size: int)
    ensures GoodPieces(p, pieces, size) ==> AllFielded(pieces)
  {
    hide Fielded, FieldList, SizeOf;
  }

  lemma NothingYet()
    ensures AllFields([]) == []
  {
  }

  method Split(p: Point, limit: int) returns (pieces: seq<Point>)
    requires Fielded(p.fields)
    ensures p.time == NoTime || SizeOf(p) <= limit ==> pieces == [p]
    ensures p.time != NoTime ==> GoodPieces(p, pieces, limit)
    ensures AllFielded(pieces) && AllFields(pieces) == FieldList(p.fields)
    ensures Joined(pieces) == p.fields
  {
    hide SizeOf, FieldsBetween, Joined, AllFields, Reaches, SplitSoFar, Building, HasValue,
      FieldEnd, Fielded, GoodPieces, AllFielded, FieldList, Room, Text, FormatInt;
    var length := StringSize(p);
    if p.time == NoTime || length <= limit {
      WholePoint(p, limit);
      return [p];
    }
    var size := Room(p, limit);
    pieces := [];
    var start, cur := 0, 0;
    NothingSplit(p, limit);
    NothingBuilt(p, size, cur);
    while cur < |p.fields|
      invariant start <= cur <= |p.fields| + 1 && (start == cur ==> cur == 0)
      invariant cur != |p.fields| && (cur < |p.fields| ==> Reaches(p.fields, cur, |p.fields|))
      invariant SplitSoFar(p, pieces, limit, start) && Building(p, size, start, cur)
      decreases |p.fields| + 1 - cur
    {
      ReachesParts(p.fields, cur, |p.fields|);
      var end := NextEnd(p.fields, cur);
      if cur > start && end - start > size {
        pieces := CutOff(p, pieces, limit, start, cur);
        start := cur;
        NothingBuilt(p, size, cur);
      }
      BuildOn(p, size, start, cur);
      cur := end + 1;
    }
    pieces := CutOff(p, pieces, limit, start, cur);
    AllSplit(p, pieces, limit);
  }

  /** The two scans at the head of Split's loop. */
  method NextEnd(buf: bytes, cur: nat) returns (end: nat)
    requires HasValue(buf, cur)
    ensures end == FieldEnd(buf, cur)
  {
    hide NextStop, ValueEnd;
    var block;
    end, block := ScanTo(buf, cur, EQUALS);
    end, block := ScanFieldValue(buf, end + 1);
  }

  lemma NothingSplit(p: Point, size: int)
    requires Fielded(p.fields)
    ensures SplitSoFar(p, [], size, 0) && Reaches(p.fields, 0, |p.fields|) && p.fields != []
  {
  }

  lemma NothingBuilt(p: Point, room: int, cur: nat)
    ensures Building(p, room, cur, cur)
  {
  }

  lemma AllSplit(p: Point, pieces: seq<Point>, size: int)
    requires SplitSoFar(p, pieces, size, |p.fields| + 1)
    ensures GoodPieces(p, pieces, size) && Joined(pieces) == p.fields
    ensures Fielded(p.fields) && AllFielded(pieces) && AllFields(pieces) == FieldList(p.fields)
  {
    hide FieldsBetween, AllFields, Joined, Reaches;
    assert p.fields[..|p.fields|] == p.fields;
  }

  /** One more field joins the piece being built if it fits or the piece is still empty. */
  lemma BuildOn(p: Point, room: int, start: nat, cur: nat)
    requires start <= cur && HasValue(p.fields, cur) && Building(p, room, start, cur)
    requires cur > start ==> FieldEnd(p.fields, cur) - start <= room
    ensures Building(p, room, start, FieldEnd(p.fields, cur) + 1)
  {
    hide HasValue, FieldEnd, Reaches, FieldsBetween;
    var e := FieldEnd(p.fields, cur);
    ReachesByField(p.fields, cur, e);
    if cur > start { ReachesOn(p.fields, start, cur - 1, e); }
  }

  lemma WholePoint(p: Point, size: int)
    requires Fielded(p.fields)
    ensures SizeOf(p) <= size ==> GoodPieces(p, [p], size)
    ensures AllFielded([p]) && AllFields([p]) == FieldList(p.fields)
    ensures Joined([p]) == p.fields
  {
    assert [p][..0] == [];
    assert AllFields([]) == [];
  }
}
