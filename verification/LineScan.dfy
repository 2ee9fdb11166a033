/** The index-based scanners of models/points.go. All of them look for the next stop byte
    that is not escaped, and a byte counts as escaped when the byte right before it is a
    backslash, whatever precedes that one. */
module LineScan {
  import opened Bytes

  /** The sets of stop bytes in use; `TagEnd` is comma, space and equals sign. */
  datatype Stops = One(stop: byte) | SpaceOr(stop: byte) | TagEnd

  predicate IsStop(b: byte, stops: Stops) {
    match stops
    case One(c) => b == c
    case SpaceOr(c) => b == c || b == SPACE
    case TagEnd => b == COMMA || b == SPACE || b == EQUALS
  }

  predicate StopAt(buf: bytes, k: nat, stops: Stops)
    requires k < |buf|
  {
    IsStop(buf[k], stops) && (k == 0 || buf[k - 1] != BACKSLASH)
  }

  /** The first unescaped stop at or after i, or the end of the buffer. */
  function NextStop(buf: bytes, i: nat, stops: Stops): (k: nat)
    requires i <= |buf|
    ensures i <= k <= |buf|
    ensures k < |buf| ==> StopAt(buf, k, stops)
    ensures forall x :: i <= x < k ==> !StopAt(buf, x, stops)
    decreases |buf| - i
  {
    if i == |buf| || StopAt(buf, i, stops) then i else NextStop(buf, i + 1, stops)
  }

  /** Nothing but those three facts determines the position. */
  lemma NextStopUnique(buf: bytes, i: nat, stops: Stops, k: nat)
    requires i <= k <= |buf|
    requires k < |buf| ==> StopAt(buf, k, stops)
    requires forall x :: i <= x < k ==> !StopAt(buf, x, stops)
    ensures NextStop(buf, i, stops) == k
  {
  }

  /** Scanning a slice from its start agrees with scanning the whole buffer, as long as the
      byte before the slice is not a backslash. */
  lemma NextStopInSlice(buf: bytes, lo: nat, hi: nat, stops: Stops)
    requires lo <= hi <= |buf|
    requires lo == 0 || buf[lo - 1] != BACKSLASH
    ensures var k := NextStop(buf, lo, stops);
            NextStop(buf[lo..hi], 0, stops) == (if k <= hi then k else hi) - lo
  {
    var k := NextStop(buf, lo, stops);
    var end := if k <= hi then k else hi;
    var s := buf[lo..hi];
    assert forall x :: 0 <= x < |s| ==> (StopAt(s, x, stops) <==> StopAt(buf, lo + x, stops));
    NextStopUnique(s, 0, stops, end - lo);
  }

  // ---------- scanTo, scanToSpaceOr, scanTagValue ----------

  method ScanTo(buf: bytes, start: nat, stop: byte) returns (i: nat, block: bytes)
    requires start <= |buf|
    ensures i == NextStop(buf, start, One(stop)) && block == buf[start..i]
  {
    i := start;
    while i < |buf| && !(buf[i] == stop && (i == 0 || buf[i - 1] != BACKSLASH))
      invariant start <= i <= |buf|
      invariant forall x :: start <= x < i ==> !StopAt(buf, x, One(stop))
    {
      i := i + 1;
    }
    NextStopUnique(buf, start, One(stop), i);
    block := buf[start..i];
  }

  /** The loop reads buf[i - 1] before it checks i against the length, so a buffer that ends in a
      backslash without a stop before is read past its end. */
  method ScanToSpaceOr(buf: bytes, start: nat, stop: byte) returns (i: nat, block: bytes)
    requires start < |buf|
    requires || buf[start] == stop || buf[start] == SPACE
             || NextStop(buf, start + 1, SpaceOr(stop)) < |buf| || buf[|buf| - 1] != BACKSLASH
    ensures i == if buf[start] == stop || buf[start] == SPACE then start else NextStop(buf, start + 1, SpaceOr(stop))
    ensures block == buf[start..i]
  {
    i := start;
    if buf[i] == stop || buf[i] == SPACE { return i, buf[start..i]; }
    while true
      invariant start <= i < NextStop(buf, start + 1, SpaceOr(stop))
      decreases |buf| - i
    {
      i := i + 1;
      if buf[i - 1] == BACKSLASH { continue; }
      assert i < |buf| && (buf[i] == stop || buf[i] == SPACE) ==> StopAt(buf, i, SpaceOr(stop));
      if i >= |buf| || buf[i] == stop || buf[i] == SPACE { return i, buf[start..i]; }
    }
  }

  // ---------- skipWhitespace, scanMeasurement ----------

  function AfterWhitespace(buf: bytes, i: nat): (k: nat)
    requires i <= |buf|
    ensures i <= k <= |buf|
    ensures k < |buf| ==> buf[k] != SPACE && buf[k] != 9 && buf[k] != 0
    ensures forall x :: i <= x < k ==> buf[x] == SPACE || buf[x] == 9 || buf[x] == 0
    decreases |buf| - i
  {
    if i < |buf| && (buf[i] == SPACE || buf[i] == 9 || buf[i] == 0) then AfterWhitespace(buf, i + 1) else i
  }

  method SkipWhitespace(buf: bytes, start: nat) returns (i: nat)
    requires start <= |buf|
    ensures i == AfterWhitespace(buf, start)
  {
    i := start;
    while i < |buf|
      invariant start <= i <= |buf|
      invariant AfterWhitespace(buf, i) == AfterWhitespace(buf, start)
    {
      if buf[i] != SPACE && buf[i] != 9 && buf[i] != 0 { break; }
      i := i + 1;
    }
  }

  datatype Error =
    | NoError | MissingMeasurement | MissingFields | MissingTagKey | MissingTagValue | InvalidTagFormat | DuplicateTags

  /** `ToTags` and `ToFields` are tagKeyState and fieldsState; `Stuck` is -1. */
  datatype NextState = ToTags | ToFields | Stuck

  datatype Step = Step(state: NextState, pos: nat, err: Error)

  function MeasurementStep(buf: bytes, i: nat): (s: Step)
    requires i <= |buf|
    ensures i <= s.pos <= |buf|
    ensures s.state.ToTags? ==> i + 1 < s.pos
  {
    if i == |buf| || buf[i] == COMMA then Step(Stuck, i, MissingMeasurement)
    else var k := NextStop(buf, i + 1, SpaceOr(COMMA));
         if k == |buf| then Step(Stuck, k, MissingFields)
         else if buf[k] == COMMA then Step(ToTags, k + 1, NoError)
         else Step(ToFields, k, NoError)
  }

  method ScanMeasurement(buf: bytes, start: nat) returns (s: Step)
    requires start <= |buf|
    ensures s == MeasurementStep(buf, start)
  {
    var i := start;
    if i >= |buf| || buf[i] == COMMA { return Step(Stuck, i, MissingMeasurement); }
    while true
      invariant start <= i < |buf|
      invariant forall x :: start + 1 <= x <= i ==> !StopAt(buf, x, SpaceOr(COMMA))
      decreases |buf| - i
    {
      i := i + 1;
      if i >= |buf| { return Step(Stuck, i, MissingFields); }
      if buf[i - 1] == BACKSLASH { continue; }
      if buf[i] == COMMA {
        NextStopUnique(buf, start + 1, SpaceOr(COMMA), i);
        return Step(ToTags, i + 1, NoError);
      }
      if buf[i] == SPACE {
        NextStopUnique(buf, start + 1, SpaceOr(COMMA), i);
        return Step(ToFields, i, NoError);
      }
    }
  }

  // ---------- scanTagsKey, scanTagsValue ----------

  function TagKeyStep(buf: bytes, i: nat): (s: (nat, Error))
    requires i <= |buf|
    ensures i <= s.0 <= |buf|
  {
    if i == |buf| || IsStop(buf[i], TagEnd) then (i, MissingTagKey)
    else var k := NextStop(buf, i + 1, TagEnd);
         if k == |buf| || buf[k] != EQUALS then (k, MissingTagValue) else (k + 1, NoError)
  }

  method ScanTagsKey(buf: bytes, start: nat) returns (i: nat, err: Error)
    requires start <= |buf|
    ensures (i, err) == TagKeyStep(buf, start)
  {
    i := start;
    if i >= |buf| || buf[i] == SPACE || buf[i] == COMMA || buf[i] == EQUALS { return i, MissingTagKey; }
    while true
      invariant start <= i < |buf|
      invariant forall x :: start + 1 <= x <= i ==> !StopAt(buf, x, TagEnd)
      decreases |buf| - i
    {
      i := i + 1;
      if i >= |buf| || ((buf[i] == SPACE || buf[i] == COMMA) && buf[i - 1] != BACKSLASH) {
        NextStopUnique(buf, start + 1, TagEnd, i);
        return i, MissingTagValue;
      }
      if buf[i] == EQUALS && buf[i - 1] != BACKSLASH {
        NextStopUnique(buf, start + 1, TagEnd, i);
        return i + 1, NoError;
      }
    }
  }

  function TagValueStep(buf: bytes, i: nat): (s: Step)
    requires i <= |buf|
    ensures i <= s.pos <= |buf|
    ensures s.state.ToTags? ==> i < s.pos
  {
    if i == |buf| || buf[i] == COMMA || buf[i] == SPACE then Step(Stuck, i, MissingTagValue)
    else var k := NextStop(buf, i + 1, TagEnd);
         if k == |buf| then Step(Stuck, k, MissingFields)
         else if buf[k] == EQUALS then Step(Stuck, k, InvalidTagFormat)
         else if buf[k] == COMMA then Step(ToTags, k + 1, NoError)
         else Step(ToFields, k, NoError)
  }

  method ScanTagsValue(buf: bytes, start: nat) returns (s: Step)
    requires start <= |buf|
    ensures s == TagValueStep(buf, start)
  {
    var i := start;
    if i >= |buf| || buf[i] == COMMA || buf[i] == SPACE { return Step(Stuck, i, MissingTagValue); }
    while true
      invariant start <= i < |buf|
      invariant forall x :: start + 1 <= x <= i ==> !StopAt(buf, x, TagEnd)
      decreases |buf| - i
    {
      i := i + 1;
      if i < |buf| && StopAt(buf, i, TagEnd) { NextStopUnique(buf, start + 1, TagEnd, i); }
      if i >= |buf| { return Step(Stuck, i, MissingFields); }
      if buf[i] == EQUALS && buf[i - 1] != BACKSLASH { return Step(Stuck, i, InvalidTagFormat); }
      if buf[i] == COMMA && buf[i - 1] != BACKSLASH { return Step(ToTags, i + 1, NoError); }
      if buf[i] == SPACE && buf[i - 1] != BACKSLASH { return Step(ToFields, i, NoError); }
    }
  }
}
