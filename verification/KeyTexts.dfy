/** Printing a series key and parsing it back: MakeKey, AppendHashKey, ParseKeyBytes,
    walkTags and parseTags of models/points.go. */
module KeyTexts {
  import opened Bytes
  import opened LineScan
  import opened KeyGrammar
  import opened Escaping

  // ---------- printing ----------

  function EscapedTag(t: RawTag): (r: RawTag) {
    RawTag(EscapeFrom(t.key, TAG_CODES), EscapeFrom(t.value, TAG_CODES))
  }

  function EscapedTags(tags: seq<RawTag>): (r: seq<RawTag>)
    ensures |r| == |tags| && forall i :: 0 <= i < |tags| ==> r[i] == EscapedTag(tags[i])
  {
    seq(|tags|, i requires 0 <= i < |tags| => EscapedTag(tags[i]))
  }

  /** Tags with an empty value are not printed. */
  function Emitted(tags: seq<RawTag>): (r: seq<RawTag>)
    ensures |r| <= |tags| && forall i :: 0 <= i < |r| ==> r[i].value != []
  {
    if tags == [] then []
    else
      var front := Emitted(tags[..|tags| - 1]);
      if tags[|tags| - 1].value == [] then front else front + [tags[|tags| - 1]]
  }

  function HashText(tags: seq<RawTag>): (s: bytes) {
    TagText(Emitted(tags))
  }

  function MakeKey(name: bytes, tags: seq<RawTag>): (key: bytes) {
    EscapeFrom(Unescape(name, MEASUREMENT_CODES), MEASUREMENT_CODES) + HashText(EscapedTags(tags))
  }

  // ---------- AppendHashKey ----------

  predicate HasCode(s: bytes) {
    COMMA in s || SPACE in s || EQUALS in s
  }

  method NeedsEscape(tags: seq<RawTag>) returns (b: bool)
    ensures b <==> exists i :: 0 <= i < |tags| && (HasCode(tags[i].key) || HasCode(tags[i].value))
  {
    for i := 0 to |tags|
      invariant forall k :: 0 <= k < i ==> !HasCode(tags[k].key) && !HasCode(tags[k].value)
    {
      for j := 0 to |TAG_CODES|
        invariant forall k :: 0 <= k < j ==> TAG_CODES[k] !in tags[i].key && TAG_CODES[k] !in tags[i].value
      {
        if TAG_CODES[j] in tags[i].key || TAG_CODES[j] in tags[i].value { return true; }
      }
      assert TAG_CODES[0] == COMMA && TAG_CODES[1] == SPACE && TAG_CODES[2] == EQUALS;
    }
    return false;
  }

  lemma NothingToEscape(s: bytes)
    requires !HasCode(s)
    ensures EscapeFrom(s, TAG_CODES) == s
  {
    assert EscapeFrom(s, [EQUALS]) == s && TAG_CODES[1..][1..] == [EQUALS];
    assert EscapeFrom(s, [SPACE, EQUALS]) == s && TAG_CODES[1..] == [SPACE, EQUALS];
  }

  /** The room AppendHashKey sets aside: every byte of the tags and three separators each. */
  function Room(tags: seq<RawTag>): (n: nat) {
    if tags == [] then 0
    else Room(tags[..|tags| - 1]) + |tags[|tags| - 1].key| + |tags[|tags| - 1].value| + 3
  }

  lemma HashTextOfOneMore(tags: seq<RawTag>, t: RawTag)
    ensures HashText(tags + [t]) == HashText(tags) + if t.value == [] then [] else [COMMA] + t.key + [EQUALS] + t.value
    ensures Room(tags + [t]) == Room(tags) + |t.key| + |t.value| + 3
  {
    hide TagText;
    assert (tags + [t])[..|tags|] == tags;
    if t.value != [] { TagTextOfOneMore(Emitted(tags), t); }
  }

  lemma {:induction false} RoomGrows(tags: seq<RawTag>, i: nat)
    requires i <= |tags|
    ensures Room(tags[..i]) <= Room(tags)
  {
    if i < |tags| {
      assert tags[..|tags| - 1][..i] == tags[..i];
      RoomGrows(tags[..|tags| - 1], i);
    } else {
      assert tags[..i] == tags;
    }
  }

  method PrintTag(buf: array<byte>, at: nat, t: RawTag) returns (next: nat)
    requires at + |t.key| + |t.value| + 2 <= buf.Length
    modifies buf
    ensures next == at + |t.key| + |t.value| + 2
    ensures buf[..next] == old(buf[..at]) + ([COMMA] + t.key + [EQUALS] + t.value)
  {
    next := CopyInto(buf, at, [COMMA]);
    next := CopyInto(buf, next, t.key);
    next := CopyInto(buf, next, [EQUALS]);
    next := CopyInto(buf, next, t.value);
  }

  method PrintTags(tags: seq<RawTag>) returns (text: bytes)
    ensures text == HashText(tags)
  {
    hide HashText, Room;
    var size := TotalSize(tags);
    var buf := new byte[size];
    var idx: nat := 0;
    assert HashText([]) == [] && Room([]) == 0 by { NoTags(); }
    for i := 0 to |tags|
      invariant fresh(buf) && buf.Length == Room(tags) && idx <= Room(tags[..i])
      invariant idx <= buf.Length && buf[..idx] == HashText(tags[..i])
    {
      assert tags[..i + 1] == tags[..i] + [tags[i]];
      HashTextOfOneMore(tags[..i], tags[i]);
      RoomGrows(tags, i + 1);
      if tags[i].value == [] { continue; }
      idx := PrintTag(buf, idx, tags[i]);
    }
    assert tags[..|tags|] == tags;
    text := buf[..idx];
  }

  lemma NoTags()
    ensures HashText([]) == [] && Room([]) == 0
  {
  }

  method TotalSize(tags: seq<RawTag>) returns (n: nat)
    ensures n == Room(tags)
  {
    n := 0;
    for i := 0 to |tags|
      invariant n == Room(tags[..i])
    {
      assert tags[..i + 1][..i] == tags[..i];
      n := n + |tags[i].key| + |tags[i].value| + 3;
    }
    assert tags[..|tags|] == tags;
  }

  method AppendHashKey(dst: bytes, tags: seq<RawTag>, escapeTags: bool) returns (r: bytes)
    ensures r == dst + HashText(if escapeTags then EscapedTags(tags) else tags)
  {
    hide EscapeFrom, TagText;
    if |tags| == 0 {
      assert EscapedTags(tags) == [];
      NoTags();
      return dst;
    }
    var needed := false;
    if escapeTags { needed := NeedsEscape(tags); }
    var printed := tags;
    if needed {
      printed := EscapeTags(tags);
    } else if escapeTags {
      forall i | 0 <= i < |tags| ensures EscapedTag(tags[i]) == tags[i] {
        NothingToEscape(tags[i].key);
        NothingToEscape(tags[i].value);
      }
      assert EscapedTags(tags) == tags;
    }
    var text := PrintTags(printed);
    r := dst + text;
  }

  method EscapeTags(tags: seq<RawTag>) returns (r: seq<RawTag>)
    ensures r == EscapedTags(tags)
  {
    r := [];
    for i := 0 to |tags|
      invariant |r| == i && forall k :: 0 <= k < i ==> r[k] == EscapedTag(tags[k])
    {
      var key := Escape(tags[i].key, TAG_CODES);
      var value := Escape(tags[i].value, TAG_CODES);
      r := r + [RawTag(key, value)];
    }
  }

  method MakeKeyText(name: bytes, tags: seq<RawTag>) returns (key: bytes)
    ensures key == MakeKey(name, tags)
  {
    var plain := UnescapeInPlace(name, MEASUREMENT_CODES);
    var escaped := Escape(plain, MEASUREMENT_CODES);
    key := AppendHashKey(escaped, tags, true);
  }

  // ---------- walkTags ----------

  datatype WalkRound = WalkRound(next: nat, found: seq<RawTag>)

  /** One round of walkTags at offset i: the tag it passes on, if any, and where it goes on.
      When a value is empty that is the comma itself, which then becomes part of the next key. */
  function Round(buf: bytes, i: nat): (r: WalkRound)
    requires i < |buf|
    ensures i < r.next && |r.found| <= 1
  {
    var k := NextStop(buf, i, One(EQUALS));
    if k == |buf| then WalkRound(|buf| + 1, [])
    else
      var e := NextStop(buf, k + 1, One(COMMA));
      if e == k + 1 then WalkRound(e, []) else WalkRound(e + 1, [RawTag(buf[i..k], buf[k + 1..e])])
  }

  /** The raw tags walkTags passes on, from offset i. */
  function WalkFrom(buf: bytes, i: nat): (tags: seq<RawTag>)
    decreases |buf| - i
  {
    if i >= |buf| then [] else Round(buf, i).found + WalkFrom(buf, Round(buf, i).next)
  }

  function WalkTags(buf: bytes): (tags: seq<RawTag>) {
    if buf == [] then []
    else
      var pos := NextStop(buf, 0, One(COMMA));
      if pos == 0 then [] else WalkFrom(buf, pos + 1)
  }

  function UnescapedTag(t: RawTag): (r: RawTag) {
    RawTag(Unescape(t.key, TAG_CODES), Unescape(t.value, TAG_CODES))
  }

  function UnescapedTags(tags: seq<RawTag>): (r: seq<RawTag>)
    ensures |r| == |tags| && forall i :: 0 <= i < |tags| ==> r[i] == UnescapedTag(tags[i])
  {
    seq(|tags|, i requires 0 <= i < |tags| => UnescapedTag(tags[i]))
  }

  function ParsedTags(buf: bytes): (tags: seq<RawTag>) {
    if BACKSLASH in buf then UnescapedTags(WalkTags(buf)) else WalkTags(buf)
  }

  function CommasFrom(buf: bytes, i: nat): (n: nat)
    decreases |buf| - i
  {
    if i >= |buf| then 0 else CommasFrom(buf, i + 1) + if buf[i] == COMMA then 1 else 0
  }

  lemma {:induction false} CommasShrink(buf: bytes, i: nat, j: nat)
    requires i <= j
    ensures CommasFrom(buf, j) <= CommasFrom(buf, i)
    decreases j - i
  {
    if i < j { CommasShrink(buf, i + 1, j); }
  }

  /** parseTags makes room for as many tags as the key has commas; that is always enough. */
  lemma {:induction false} WalkFits(buf: bytes, i: nat)
    ensures |WalkFrom(buf, i)| <= CommasFrom(buf, i) + 1
    decreases |buf| - i
  {
    if i < |buf| {
      var r := Round(buf, i);
      WalkFits(buf, r.next);
      RoundUsesComma(buf, i);
    }
  }

  lemma RoundUsesComma(buf: bytes, i: nat)
    requires i < |buf|
    ensures var r := Round(buf, i);
            CommasFrom(buf, r.next) <= CommasFrom(buf, i)
            && (r.found != [] && r.next <= |buf| ==> CommasFrom(buf, r.next) < CommasFrom(buf, i))
            && (r.found != [] && r.next > |buf| ==> WalkFrom(buf, r.next) == [])
  {
    var k := NextStop(buf, i, One(EQUALS));
    CommasShrink(buf, i, Round(buf, i).next);
    if k < |buf| {
      var e := NextStop(buf, k + 1, One(COMMA));
      CommasShrink(buf, i, e);
    }
  }

  lemma ParsedTagsFit(buf: bytes)
    ensures |ParsedTags(buf)| <= CommasFrom(buf, 0)
  {
    if buf != [] {
      var pos := NextStop(buf, 0, One(COMMA));
      WalkFits(buf, pos + 1);
      CommasShrink(buf, 0, pos);
    }
  }

  method ScanTagValue(buf: bytes, start: nat) returns (i: nat, value: bytes)
    requires 0 < start
    ensures start <= |buf| ==> i == NextStop(buf, start, One(COMMA)) && value == buf[start..i]
    ensures start > |buf| ==> i == start && value == []
  {
    i := start;
    while i < |buf|
      invariant start <= i && (start <= |buf| ==> i <= |buf|) && (start > |buf| ==> i == start)
      invariant forall x :: start <= x < i && x < |buf| ==> !StopAt(buf, x, One(COMMA))
    {
      if buf[i] == COMMA && buf[i - 1] != BACKSLASH { break; }
      i := i + 1;
    }
    if i > |buf| { return i, []; }
    NextStopUnique(buf, start, One(COMMA), i);
    value := buf[start..i];
  }

  method CountCommas(buf: bytes) returns (n: nat)
    ensures n == CommasFrom(buf, 0)
  {
    n := 0;
    for i := 0 to |buf|
      invariant n + CommasFrom(buf, i) == CommasFrom(buf, 0)
    {
      if buf[i] == COMMA { n := n + 1; }
    }
  }

  method NextTag(buf: bytes, start: nat) returns (next: nat, found: bool, t: RawTag)
    requires start < |buf|
    ensures Round(buf, start) == WalkRound(next, if found then [t] else [])
  {
    hide NextStop;
    var i, key := ScanTo(buf, start, EQUALS);
    var value;
    next, value := ScanTagValue(buf, i + 1);
    t, found := RawTag(key, value), |value| > 0;
    if found { next := next + 1; }
  }

  method UnescapeIf(hasEscape: bool, t: RawTag) returns (r: RawTag)
    ensures r == if hasEscape then UnescapedTag(t) else t
  {
    r := t;
    if hasEscape {
      var k := UnescapeInPlace(t.key, TAG_CODES);
      var v := UnescapeInPlace(t.value, TAG_CODES);
      r := RawTag(k, v);
    }
  }

  /** parseTags with the callback of walkTags inlined: dst[n] is written for the n-th tag. */
  method ParseTagList(buf: bytes) returns (tags: seq<RawTag>)
    ensures tags == ParsedTags(buf)
  {
    hide Round, WalkFrom, UnescapedTag, CommasFrom;
    if |buf| == 0 { return []; }
    ParsedTagsFit(buf);
    var room := CountCommas(buf);
    var pos, name := ScanTo(buf, 0, COMMA);
    if |name| == 0 { return []; }
    var hasEscape := BACKSLASH in buf;
    tags := CollectTags(buf, pos + 1, room, hasEscape);
  }

  method CollectTags(buf: bytes, start: nat, room: nat, hasEscape: bool) returns (tags: seq<RawTag>)
    requires |WalkFrom(buf, start)| <= room
    ensures tags == if hasEscape then UnescapedTags(WalkFrom(buf, start)) else WalkFrom(buf, start)
  {
    hide Round, UnescapedTag;
    var dst := new RawTag[room](_ => RawTag([], []));
    var i, n: nat := start, 0;
    ghost var all := WalkFrom(buf, start);
    while i < |buf|
      invariant n <= |all| <= dst.Length && all[n..] == WalkFrom(buf, i)
      invariant forall k :: 0 <= k < n ==> dst[k] == if hasEscape then UnescapedTag(all[k]) else all[k]
      decreases |buf| - i
    {
      var found, t;
      ghost var at := i;
      i, found, t := NextTag(buf, i);
      assert all[n..] == (if found then [t] else []) + WalkFrom(buf, i);
      if !found { continue; }
      assert all[n] == all[n..][0] == t && all[n + 1..] == all[n..][1..];
      dst[n] := UnescapeIf(hasEscape, t);
      n := n + 1;
    }
    tags := dst[..n];
  }

  datatype Parsed = Parsed(name: bytes, tags: seq<RawTag>)

  function ParseKeyBytes(buf: bytes): (p: Parsed) {
    var m := MeasurementStep(buf, 0);
    if m.state.ToTags?
    then Parsed(Unescape(buf[..m.pos - 1], MEASUREMENT_CODES), ParsedTags(buf))
    else Parsed(Unescape(buf[..m.pos], MEASUREMENT_CODES), [])
  }

  method ParseKeyText(buf: bytes) returns (name: bytes, tags: seq<RawTag>)
    ensures Parsed(name, tags) == ParseKeyBytes(buf)
  {
    hide NextStop, ParsedTags;
    var m := ScanMeasurement(buf, 0);
    tags := [];
    if m.state.ToTags? {
      tags := ParseTagList(buf);
      name := UnescapeInPlace(buf[..m.pos - 1], MEASUREMENT_CODES);
    } else {
      name := UnescapeInPlace(buf[..m.pos], MEASUREMENT_CODES);
    }
  }
}
