/** What ParseKeyBytes makes of a key printed by MakeKey, and when the line scanner leaves
    such a key as it is. */
module KeyRoundTrip {
  import opened Bytes
  import opened LineScan
  import opened KeyGrammar
  import opened Escaping
  import opened KeyTexts
  import opened Sequences
  import opened TagOrder
  import opened ScanKeys

  // ---------- escaped texts are scanned to their end ----------

  /** No position of s is a stop, not even the first. */
  predicate Free(s: bytes, stops: Stops) {
    forall k :: 0 <= k < |s| ==> !StopAt(s, k, stops)
  }

  /** Every stop byte is one of the codes, so escaping by the codes hides it. */
  predicate Hides(codes: seq<byte>, stops: Stops) {
    forall b: byte :: IsStop(b, stops) ==> b in codes
  }

  lemma {:induction false} EscapedIsFree(s: bytes, codes: seq<byte>, stops: Stops)
    requires Hides(codes, stops) && BACKSLASH !in codes
    ensures Free(Escaped(s, codes), stops)
  {
    if s != [] {
      var head, tail := if s[0] in codes then [BACKSLASH, s[0]] else [s[0]], Escaped(s[1..], codes);
      var e := Escaped(s, codes);
      EscapedIsFree(s[1..], codes, stops);
      EscapedStart(s[1..], codes);
      forall k | 0 <= k < |e| ensures !StopAt(e, k, stops) {
        if k >= |head| {
          assert !StopAt(tail, k - |head|, stops) && e[k] == tail[k - |head|];
          if k > |head| { assert e[k - 1] == tail[k - |head| - 1]; }
        }
      }
    }
  }

  lemma {:induction false} EscapedEnd(s: bytes, codes: seq<byte>)
    requires s != []
    ensures var e := Escaped(s, codes); e != [] && e[|e| - 1] == s[|s| - 1]
  {
    if |s| > 1 { EscapedEnd(s[1..], codes); }
  }

  predicate EndsInBackslash(s: bytes) {
    s != [] && s[|s| - 1] == BACKSLASH
  }

  /** Escaping keeps what matters to the scanners: no free stop, the same last byte, and
      emptiness. */
  lemma EscapeForScan(s: bytes, codes: seq<byte>, stops: Stops)
    requires Distinct(codes) && Hides(codes, stops)
    ensures var e := EscapeFrom(s, codes);
            Free(e, stops) && (EndsInBackslash(e) <==> EndsInBackslash(s)) && (e == [] <==> s == [])
  {
    EscapeIsOnePass(s, codes);
    EscapedIsFree(s, codes, stops);
    if s != [] { EscapedEnd(s, codes); }
  }

  lemma ScanExact(buf: bytes, i: nat, s: bytes, stops: Stops)
    requires At(buf, i, s) && Free(s, stops)
    requires i + |s| == |buf| || StopAt(buf, i + |s|, stops)
    ensures NextStop(buf, i, stops) == i + |s| && buf[i..i + |s|] == s
  {
    forall x | i <= x < i + |s| ensures !StopAt(buf, x, stops) {
      assert !StopAt(s, x - i, stops) && buf[x] == s[x - i];
      if x > i { assert buf[x - 1] == s[x - i - 1]; }
    }
    NextStopUnique(buf, i, stops, i + |s|);
  }

  // ---------- walking printed tags ----------

  /** A printed tag that the walk reads back: its key does not end in a backslash, and
      neither does its value unless it is the last one. */
  predicate Walkable(e: seq<RawTag>) {
    forall i :: 0 <= i < |e| ==> WalkableTag(e[i], i + 1 == |e|)
  }

  predicate WalkableTag(t: RawTag, last: bool) {
    && Free(t.key, One(EQUALS)) && !EndsInBackslash(t.key)
    && t.value != [] && Free(t.value, One(COMMA)) && (last || !EndsInBackslash(t.value))
  }

  /** A separator right behind s is a stop unless s ends in a backslash. */
  lemma SeparatorStops(buf: bytes, i: nat, s: bytes, b: byte)
    requires At(buf, i, s) && !EndsInBackslash(s) && 0 < i && i + |s| < |buf| && buf[i + |s|] == b
    requires s == [] ==> buf[i - 1] != BACKSLASH
    ensures StopAt(buf, i + |s|, One(b))
  {
    if s != [] { assert buf[i + |s| - 1] == s[|s| - 1]; }
  }

  lemma RoundReadsTag(buf: bytes, i: nat, t: RawTag, last: bool)
    requires 0 < i <= |buf| && buf[i - 1] == COMMA && WalkableTag(t, last) && At(buf, i, PairText(t))
    requires var end := i + |PairText(t)|; if last then end == |buf| else end < |buf| && buf[end] == COMMA
    ensures i < |buf| && Round(buf, i) == WalkRound(i + |PairText(t)| + 1, [t])
  {
    hide At, NextStop, Free, StopAt, EndsInBackslash;
    TagParts(buf, i, t);
    var eq, end := i + |t.key|, i + |PairText(t)|;
    assert end == eq + 1 + |t.value|;
    SeparatorStops(buf, i, t.key, EQUALS);
    ScanExact(buf, i, t.key, One(EQUALS));
    if !last { SeparatorStops(buf, eq + 1, t.value, COMMA); }
    ScanExact(buf, eq + 1, t.value, One(COMMA));
  }

  lemma RestIsWalkable(e: seq<RawTag>)
    requires Walkable(e) && e != []
    ensures WalkableTag(e[0], |e| == 1) && Walkable(e[1..])
  {
    hide WalkableTag;
    var rest := e[1..];
    assert WalkableTag(e[0], 0 + 1 == |e|);
    forall k | 0 <= k < |rest| ensures WalkableTag(rest[k], k + 1 == |rest|) {
      assert WalkableTag(e[k + 1], k + 1 + 1 == |e|);
    }
  }

  /** The parts of the text of two or more tags. */
  lemma BodyParts(buf: bytes, i: nat, e: seq<RawTag>)
    requires |e| > 1 && At(buf, i, TagBody(e))
    ensures var end := i + |PairText(e[0])|;
            && At(buf, i, PairText(e[0])) && end < |buf| && buf[end] == COMMA
            && At(buf, end + 1, TagBody(e[1..])) && |TagBody(e)| == |PairText(e[0])| + 1 + |TagBody(e[1..])|
  {
    hide PairText;
    var end, body := i + |PairText(e[0])|, TagBody(e[1..]);
    AtSplit(buf, i, PairText(e[0]), [COMMA] + body);
    AtSplit(buf, end, [COMMA], body);
    assert buf[end] == [COMMA][0];
  }

  lemma WalkOne(buf: bytes, i: nat, t: RawTag, next: nat)
    requires i < |buf| && Round(buf, i) == WalkRound(next, [t])
    ensures WalkFrom(buf, i) == [t] + WalkFrom(buf, next) && (next > |buf| ==> WalkFrom(buf, next) == [])
  {
    hide Round;
  }

  lemma {:induction false} WalkReadsTags(buf: bytes, i: nat, e: seq<RawTag>)
    requires e != [] && Walkable(e) && 0 < i <= |buf| && buf[i - 1] == COMMA
    requires At(buf, i, TagBody(e)) && i + |TagBody(e)| == |buf|
    ensures WalkFrom(buf, i) == e
    decreases |e|
  {
    hide At, PairText, WalkableTag, Walkable, Round, WalkFrom, TagBody;
    RestIsWalkable(e);
    var end := i + |PairText(e[0])|;
    if |e| == 1 {
      assert TagBody(e) == PairText(e[0]) by { BodyOfOne(e); }
      RoundReadsTag(buf, i, e[0], true);
    } else {
      BodyParts(buf, i, e);
      RoundReadsTag(buf, i, e[0], false);
      WalkReadsTags(buf, end + 1, e[1..]);
    }
    WalkOne(buf, i, e[0], end + 1);
    assert e == [e[0]] + e[1..];
  }

  lemma BodyOfOne(e: seq<RawTag>)
    ensures |e| == 1 ==> TagBody(e) == PairText(e[0])
  {
  }

  // ---------- the round trip ----------

  /** The name, unescaped, can be told apart from the tags that follow it, and the printed
      tags from one another: no backslash stands right before a separator. */
  predicate Printable(name: bytes, tags: seq<RawTag>) {
    var e := Emitted(tags);
    && name != [] && (e != [] ==> !EndsInBackslash(name))
    && forall i :: 0 <= i < |e| ==> SeparableTag(e[i], i + 1 == |e|)
  }

  predicate SeparableTag(t: RawTag, last: bool) {
    !EndsInBackslash(t.key) && (last || !EndsInBackslash(t.value))
  }

  lemma {:induction false} EmittedOfEscaped(tags: seq<RawTag>)
    ensures Emitted(EscapedTags(tags)) == EscapedTags(Emitted(tags))
  {
    hide EscapeFrom;
    if tags != [] {
      var n := |tags| - 1;
      EmittedOfEscaped(tags[..n]);
      assert EscapedTags(tags)[..n] == EscapedTags(tags[..n]);
      EmptyEscapes(tags[n].value);
    }
  }

  lemma EmptyEscapes(s: bytes)
    ensures EscapeFrom(s, TAG_CODES) == [] <==> s == []
  {
    TagCodesHide();
    EscapeForScan(s, TAG_CODES, One(COMMA));
  }

  lemma TagCodesHide()
    ensures Distinct(TAG_CODES) && Hides(TAG_CODES, One(EQUALS)) && Hides(TAG_CODES, One(COMMA))
            && Hides(TAG_CODES, TagEnd)
    ensures Distinct(MEASUREMENT_CODES) && Hides(MEASUREMENT_CODES, One(COMMA))
            && Hides(MEASUREMENT_CODES, SpaceOr(COMMA))
  {
    assert TAG_CODES[0] == COMMA && TAG_CODES[1] == SPACE && TAG_CODES[2] == EQUALS;
    assert MEASUREMENT_CODES[0] == COMMA && MEASUREMENT_CODES[1] == SPACE;
  }

  lemma EscapedTagIsWalkable(t: RawTag, last: bool)
    requires t.value != [] && SeparableTag(t, last)
    ensures WalkableTag(EscapedTag(t), last)
  {
    TagCodesHide();
    EscapeForScan(t.key, TAG_CODES, One(EQUALS));
    EscapeForScan(t.value, TAG_CODES, One(COMMA));
  }

  lemma UnescapedEscapedTags(tags: seq<RawTag>)
    ensures UnescapedTags(EscapedTags(tags)) == tags
  {
    TagCodesHide();
    hide Unescape, EscapeFrom, Distinct;
    forall i | 0 <= i < |tags| ensures UnescapedTag(EscapedTag(tags[i])) == tags[i] {
      UnescapeUndoesEscape(tags[i].key, TAG_CODES);
      UnescapeUndoesEscape(tags[i].value, TAG_CODES);
    }
  }

  /** A printed key without any backslash has nothing to unescape. */
  lemma {:induction false} TextHoldsTags(tags: seq<RawTag>, i: nat)
    requires i < |tags| && BACKSLASH !in TagText(tags)
    ensures BACKSLASH !in tags[i].key && BACKSLASH !in tags[i].value
    decreases |tags|
  {
    var text, first, rest := TagText(tags), PairText(tags[0]), TagText(tags[1..]);
    assert text == [COMMA] + first + rest;
    assert forall b :: b in first || b in rest ==> b in text;
    if i == 0 {
      assert forall b :: b in tags[0].key || b in tags[0].value ==> b in first;
    } else {
      TextHoldsTags(tags[1..], i - 1);
    }
  }

  lemma NameIsScannedBack(name: bytes, text: bytes)
    requires name != [] && Free(name, SpaceOr(COMMA)) && Free(name, One(COMMA))
    requires text == [] || (text[0] == COMMA && !EndsInBackslash(name))
    ensures var buf := name + text;
            MeasurementStep(buf, 0) ==
              (if text == [] then Step(Stuck, |buf|, MissingFields) else Step(ToTags, |name| + 1, NoError))
            && NextStop(buf, 0, One(COMMA)) == |name| && buf[..|name|] == name
  {
    var buf := name + text;
    assert At(buf, 0, name);
    assert !StopAt(name, 0, SpaceOr(COMMA));
    assert text != [] ==> buf[|name|] == COMMA && buf[|name| - 1] == name[|name| - 1];
    ScanExact(buf, 0, name, SpaceOr(COMMA));
    ScanExact(buf, 0, name, One(COMMA));
    FromNext(buf, 0, SpaceOr(COMMA));
  }

  /** Parsing a printed key gives back the unescaped name and every tag with a non-empty
      value, byte for byte. */
  lemma ParseUndoesMake(name: bytes, tags: seq<RawTag>)
    requires Printable(Unescape(name, MEASUREMENT_CODES), tags)
    ensures ParseKeyBytes(MakeKey(name, tags)) == Parsed(Unescape(name, MEASUREMENT_CODES), Emitted(tags))
  {
    var u, e := Unescape(name, MEASUREMENT_CODES), Emitted(tags);
    var n, printed := EscapeFrom(u, MEASUREMENT_CODES), EscapedTags(e);
    hide Unescape, EscapeFrom, Free, EndsInBackslash, Distinct, Hides, NextStop, TagBody;
    TagCodesHide();
    EmittedOfEscaped(tags);
    EscapeForScan(u, MEASUREMENT_CODES, SpaceOr(COMMA));
    EscapeForScan(u, MEASUREMENT_CODES, One(COMMA));
    UnescapeUndoesEscape(u, MEASUREMENT_CODES);
    NameIsScannedBack(n, TagText(printed));
    if e != [] {
      PrintedTagsParse(n, e);
    } else {
      assert n + TagText(printed) == n;
    }
  }

  lemma WalkStart(buf: bytes, pos: nat)
    requires buf != [] && NextStop(buf, 0, One(COMMA)) == pos > 0
    ensures WalkTags(buf) == WalkFrom(buf, pos + 1)
  {
    hide NextStop, WalkFrom;
  }

  lemma BehindName(n: bytes, body: bytes)
    ensures var buf := n + ([COMMA] + body);
            |buf| == |n| + 1 + |body| && buf[|n|] == COMMA && At(buf, |n| + 1, body)
  {
    assert n + ([COMMA] + body) == (n + [COMMA]) + body;
    Slices(n + [COMMA], body);
  }

  lemma WalkBehindName(buf: bytes, pos: nat, printed: seq<RawTag>)
    requires printed != [] && Walkable(printed) && 0 < pos < |buf| && buf[pos] == COMMA
    requires At(buf, pos + 1, TagBody(printed)) && |buf| == pos + 1 + |TagBody(printed)|
    requires NextStop(buf, 0, One(COMMA)) == pos
    ensures WalkTags(buf) == printed
  {
    hide NextStop, TagBody, WalkFrom, Walkable, WalkTags, At;
    WalkStart(buf, pos);
    WalkReadsTags(buf, pos + 1, printed);
  }

  lemma TextOfTags(e: seq<RawTag>)
    ensures e != [] ==> TagText(e) == [COMMA] + TagBody(e)
  {
    hide TagBody;
  }

  lemma PrintedTagsAreWalked(n: bytes, printed: seq<RawTag>)
    requires n != [] && printed != [] && NextStop(n + TagText(printed), 0, One(COMMA)) == |n| && Walkable(printed)
    ensures WalkTags(n + TagText(printed)) == printed
  {
    hide NextStop, TagBody, WalkFrom, Walkable, WalkTags, At, TagText;
    TextOfTags(printed);
    BehindName(n, TagBody(printed));
    WalkBehindName(n + TagText(printed), |n|, printed);
  }

  lemma PrintedTagsParse(n: bytes, e: seq<RawTag>)
    requires n != [] && e != [] && NextStop(n + TagText(EscapedTags(e)), 0, One(COMMA)) == |n|
    requires forall i :: 0 <= i < |e| ==> e[i].value != [] && SeparableTag(e[i], i + 1 == |e|)
    ensures ParsedTags(n + TagText(EscapedTags(e))) == e
  {
    hide Unescape, EscapeFrom, SeparableTag, WalkableTag, PairText, NextStop, TagText, WalkTags,
         UnescapedTag, EscapedTag;
    var printed := EscapedTags(e);
    forall i | 0 <= i < |e| ensures WalkableTag(printed[i], i + 1 == |printed|) {
      EscapedTagIsWalkable(e[i], i + 1 == |e|);
    }
    PrintedTagsAreWalked(n, printed);
    UnescapedEscapedTags(e);
    if BACKSLASH !in n + TagText(printed) {
      assert BACKSLASH !in TagText(printed);
      forall i | 0 <= i < |e| ensures UnescapedTag(printed[i]) == printed[i] {
        TextHoldsTags(printed, i);
        NoBackslash(printed[i]);
      }
      assert UnescapedTags(printed) == printed;
    }
  }

  lemma NoBackslash(t: RawTag)
    ensures BACKSLASH !in t.key && BACKSLASH !in t.value ==> UnescapedTag(t) == t
  {
  }

  // ---------- when the name comes back unchanged ----------

  predicate PairAt(s: bytes, k: nat, b: byte)
    requires k + 1 < |s|
  {
    s[k] == BACKSLASH && s[k + 1] == b
  }

  predicate HasPair(s: bytes, b: byte) {
    exists k :: 0 <= k < |s| - 1 && PairAt(s, k, b)
  }

  lemma {:induction false} RestoreIsIdentityIff(s: bytes, b: byte)
    ensures |RestoreByte(s, b)| <= |s|
    ensures HasPair(s, b) ==> |RestoreByte(s, b)| < |s|
    ensures !HasPair(s, b) ==> RestoreByte(s, b) == s
  {
    if |s| >= 2 {
      if PairAt(s, 0, b) {
        RestoreIsIdentityIff(s[2..], b);
      } else {
        var t := s[1..];
        RestoreIsIdentityIff(t, b);
        assert s == [s[0]] + t;
        if HasPair(s, b) {
          var k :| 0 <= k < |s| - 1 && PairAt(s, k, b);
          assert PairAt(t, k - 1, b);
        } else {
          forall k | 0 <= k < |t| - 1 ensures !PairAt(t, k, b) { assert !PairAt(s, k + 1, b); }
        }
      }
    }
  }

  lemma RestoreIfPresent(s: bytes, b: byte)
    ensures var r := if b in s then RestoreByte(s, b) else s;
            |r| <= |s| && (HasPair(s, b) ==> |r| < |s|) && (!HasPair(s, b) ==> r == s)
  {
    RestoreIsIdentityIff(s, b);
    if HasPair(s, b) {
      var k :| 0 <= k < |s| - 1 && PairAt(s, k, b);
      assert s[k + 1] in s;
    }
  }

  /** The name itself comes back if and only if it holds no comma or space that is already
      escaped; otherwise it comes back with those unescaped. */
  lemma NameUnchangedIff(name: bytes)
    ensures Unescape(name, MEASUREMENT_CODES) == name <==> !HasPair(name, COMMA) && !HasPair(name, SPACE)
  {
    hide RestoreByte;
    if BACKSLASH in name {
      var r := if COMMA in name then RestoreByte(name, COMMA) else name;
      RestoreIfPresent(name, COMMA);
      RestoreIfPresent(r, SPACE);
      assert MEASUREMENT_CODES[1..] == [SPACE];
      assert RestoreFrom(name, MEASUREMENT_CODES) == RestoreFrom(r, [SPACE]);
      assert RestoreFrom(r, [SPACE]) == if SPACE in r then RestoreByte(r, SPACE) else r;
    }
  }

  // ---------- printed keys on a line ----------

  /** What keeps a printed key in one piece in front of a space. */
  predicate LineSafe(name: bytes, tags: seq<RawTag>) {
    && name != [] && name[0] != 9 && name[0] != 0 && !EndsInBackslash(name)
    && forall i :: 0 <= i < |tags| ==> SafeTag(tags[i])
  }

  predicate SafeTag(t: RawTag) {
    t.key != [] && t.value != [] && !EndsInBackslash(t.key) && !EndsInBackslash(t.value)
  }

  lemma TagPrintsWellIff(t: RawTag)
    ensures WellTag(EscapedTag(t)) <==> SafeTag(t)
  {
    hide EscapeFrom;
    TagCodesHide();
    EscapeForScan(t.key, TAG_CODES, TagEnd);
    EscapeForScan(t.value, TAG_CODES, TagEnd);
    var k, v := EscapeFrom(t.key, TAG_CODES), EscapeFrom(t.value, TAG_CODES);
    assert (k != [] ==> !StopAt(k, 0, TagEnd)) && (v != [] ==> !StopAt(v, 0, TagEnd));
  }

  lemma NamePrintsWellIff(u: bytes)
    ensures var n := EscapeFrom(u, MEASUREMENT_CODES);
            && (WellName(n) <==> u != [] && !EndsInBackslash(u)) && (n == [] <==> u == [])
            && (u != [] ==> n[0] != SPACE && (n[0] == 9 <==> u[0] == 9) && (n[0] == 0 <==> u[0] == 0))
  {
    hide EscapeFrom;
    TagCodesHide();
    EscapeForScan(u, MEASUREMENT_CODES, SpaceOr(COMMA));
    EscapeIsOnePass(u, MEASUREMENT_CODES);
    var n := EscapeFrom(u, MEASUREMENT_CODES);
    assert n != [] ==> !StopAt(n, 0, SpaceOr(COMMA));
  }

  /** A printed key in front of a space is a key section of the grammar, with the printed name and
      tags, if and only if it is safe. */
  lemma PrintedLineIsSectionIff(name: bytes, tags: seq<RawTag>, rest: bytes)
    ensures var key := MakeKey(name, tags);
            var line := key + [SPACE] + rest;
            AfterWhitespace(line, 0) == 0
            && IsKeySection(line, 0, |key|, EscapeFrom(Unescape(name, MEASUREMENT_CODES), MEASUREMENT_CODES),
                            EscapedTags(Emitted(tags)))
            <==> LineSafe(Unescape(name, MEASUREMENT_CODES), Emitted(tags))
  {
    var u, e := Unescape(name, MEASUREMENT_CODES), Emitted(tags);
    var n := EscapeFrom(u, MEASUREMENT_CODES);
    hide EscapeFrom, Unescape, WellTag, SafeTag, TagText, EscapedTag, WellName, Emitted, AfterWhitespace;
    EmittedOfEscaped(tags);
    NamePrintsWellIff(u);
    TagsPrintWellIff(e);
    var key := MakeKey(name, tags);
    var line := key + [SPACE] + rest;
    assert line[..|key|] == key && line[|key|] == SPACE;
    if n != [] {
      assert line[0] == key[0] == n[0];
      StaysAtStart(line);
    }
  }

  lemma StaysAtStart(line: bytes)
    requires line != []
    ensures AfterWhitespace(line, 0) == 0 <==> line[0] != SPACE && line[0] != 9 && line[0] != 0
  {
  }

  lemma TagsPrintWellIff(tags: seq<RawTag>)
    ensures WellTags(EscapedTags(tags)) <==> forall i :: 0 <= i < |tags| ==> SafeTag(tags[i])
  {
    hide WellTag, SafeTag, EscapedTag;
    forall i | 0 <= i < |tags| ensures WellTag(EscapedTags(tags)[i]) <==> SafeTag(tags[i]) {
      TagPrintsWellIff(tags[i]);
    }
  }

  /** The scanner finds the printed name and tags, and nothing more, if and only if the key is safe. */
  lemma PrintedKeyIsScannedIff(name: bytes, tags: seq<RawTag>, rest: bytes)
    ensures var key := MakeKey(name, tags);
            var line := key + [SPACE] + rest;
            var p := ParseKey(line, AfterWhitespace(line, 0));
            AfterWhitespace(line, 0) == 0 && p.GoodKey? && p.pos == |key|
            && p.name == EscapeFrom(Unescape(name, MEASUREMENT_CODES), MEASUREMENT_CODES)
            && p.tags == EscapedTags(Emitted(tags))
            <==> LineSafe(Unescape(name, MEASUREMENT_CODES), Emitted(tags))
  {
    hide EscapeFrom, Unescape, EscapedTag, Emitted, AfterWhitespace, ParseKey, IsKeySection, LineSafe, MakeKey;
    PrintedLineIsSectionIff(name, tags, rest);
    var key := MakeKey(name, tags);
    var line := key + [SPACE] + rest;
    var n, e := EscapeFrom(Unescape(name, MEASUREMENT_CODES), MEASUREMENT_CODES), EscapedTags(Emitted(tags));
    if IsKeySection(line, 0, |key|, n, e) { KeyParseIsComplete(line, 0, |key|, n, e); }
    if AfterWhitespace(line, 0) == 0 && ParseKey(line, 0).GoodKey? { KeyParseIsSound(line, 0); }
  }

  /** A printed key put on a line is scanned as the very same key if and only if its tags are
      ascending in their escaped form. */
  lemma PrintedKeyIsFixedIff(name: bytes, tags: seq<RawTag>, rest: bytes, pos: nat, key: bytes, err: Error)
    requires LineSafe(Unescape(name, MEASUREMENT_CODES), Emitted(tags)) && !HasDuplicate(EscapedTags(Emitted(tags)))
    requires Scanned(MakeKey(name, tags) + [SPACE] + rest, 0, pos, key, err)
    ensures err == NoError && pos == |MakeKey(name, tags)|
    ensures key == MakeKey(name, tags) <==> Ascending(EscapedTags(Emitted(tags)))
  {
    hide EscapeFrom, Unescape, HasDuplicate, Ascending, IsKeySection, LineSafe, Emitted, EscapedTag, TagText, ParseKey;
    var n, e := EscapeFrom(Unescape(name, MEASUREMENT_CODES), MEASUREMENT_CODES), EscapedTags(Emitted(tags));
    var made := MakeKey(name, tags);
    var line := made + [SPACE] + rest;
    EmittedOfEscaped(tags);
    PrintedLineIsSectionIff(name, tags, rest);
    KeyParseIsComplete(line, 0, |made|, n, e);
    var sorted :| SameTags(e, sorted) && Ascending(sorted) && key == KeyText(n, sorted);
    if Ascending(e) {
      AscendingIsUnique(e, sorted);
    } else if key == made {
      assert line[0] != SPACE && line[0] != 9 && line[0] != 0;
      CanonicalLine(line, 0, |made|, n, e, sorted, rest);
      KeyParseIsComplete(line, 0, |made|, n, sorted);
    }
  }

  /** Tags sorted by their plain keys need not be ascending once escaped: `a,` precedes `a0`,
      but its escaped form does not. MakeKey then prints a key that the line scanner would
      arrange differently. */
  lemma PlainOrderIsNotEscapedOrder()
    ensures var tags := [RawTag([97, COMMA], [120]), RawTag([97, 48], [121])];
            Ascending(tags) && !Ascending(EscapedTags(Emitted(tags))) && !HasDuplicate(EscapedTags(Emitted(tags)))
  {
    hide EscapeFrom, Less, EscapedTag;
    var x, y := RawTag([97, COMMA], [120]), RawTag([97, 48], [121]);
    var tags := [x, y];
    assert tags[..1] == [x] && [x][..0] == [];
    assert Emitted([x]) == [x];
    assert Emitted(tags) == tags;
    var e := EscapedTags(tags);
    EscapedKeys(x, y);
    OrderOfKeys();
    assert e[0].key == [97, BACKSLASH, COMMA] && e[1].key == [97, 48];
  }

  lemma EscapedKeys(x: RawTag, y: RawTag)
    requires x.key == [97, COMMA] && y.key == [97, 48]
    ensures EscapedTag(x).key == [97, BACKSLASH, COMMA] && EscapedTag(y).key == [97, 48]
  {
    hide EscapeFrom;
    TagCodesHide();
    EscapeIsOnePass(x.key, TAG_CODES);
    EscapeIsOnePass(y.key, TAG_CODES);
    assert x.key[1..] == [COMMA] && y.key[1..] == [48];
    assert Escaped([COMMA], TAG_CODES) == [BACKSLASH, COMMA] && Escaped([48], TAG_CODES) == [48];
  }

  lemma OrderOfKeys()
    ensures Less([97, COMMA], [97, 48]) && !Less([97, BACKSLASH, COMMA], [97, 48])
  {
    assert [97, BACKSLASH, COMMA][1..] == [BACKSLASH, COMMA] && [97 as byte, 48][1..] == [48];
    assert [97, COMMA][1..] == [COMMA];
  }
}
