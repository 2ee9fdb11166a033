/** The key section of a line, `measurement[,tag=value]*` up to an unescaped space: a grammar
    stated on byte strings, and the tag scanner of models/points.go as its parser. */
module KeyGrammar {
  import opened Bytes
  import opened LineScan

  datatype RawTag = RawTag(key: bytes, value: bytes)

  // ---------- the grammar ----------

  /** Stop bytes past the first position are all escaped. */
  predicate Clean(s: bytes, stops: Stops) {
    forall k :: 1 <= k < |s| ==> !StopAt(s, k, stops)
  }

  predicate Token(s: bytes, first: Stops, stops: Stops) {
    s != [] && !IsStop(s[0], first) && Clean(s, stops) && s[|s| - 1] != BACKSLASH
  }

  predicate WellTag(t: RawTag) {
    Token(t.key, TagEnd, TagEnd) && Token(t.value, SpaceOr(COMMA), TagEnd)
  }

  predicate WellTags(tags: seq<RawTag>) {
    forall i :: 0 <= i < |tags| ==> WellTag(tags[i])
  }

  predicate WellName(name: bytes) {
    Token(name, One(COMMA), SpaceOr(COMMA))
  }

  function PairText(t: RawTag): (s: bytes) {
    t.key + [EQUALS] + t.value
  }

  /** The tags separated by commas. */
  function TagBody(tags: seq<RawTag>): (s: bytes)
    requires tags != []
  {
    if |tags| == 1 then PairText(tags[0]) else PairText(tags[0]) + ([COMMA] + TagBody(tags[1..]))
  }

  function TagText(tags: seq<RawTag>): (s: bytes) {
    if tags == [] then [] else [COMMA] + TagBody(tags)
  }

  function KeyText(name: bytes, tags: seq<RawTag>): (s: bytes) {
    name + TagText(tags)
  }

  lemma {:induction false} TagTextOfOneMore(tags: seq<RawTag>, t: RawTag)
    ensures TagText(tags + [t]) == TagText(tags) + [COMMA] + PairText(t)
  {
    hide PairText;
    if tags == [] {
      assert tags + [t] == [t];
    } else {
      var rest := tags[1..];
      TagTextOfOneMore(rest, t);
      assert (tags + [t])[1..] == rest + [t];
      assert TagText(tags + [t]) == [COMMA] + PairText(tags[0]) + TagText(rest + [t]);
      assert TagText(tags) == [COMMA] + PairText(tags[0]) + TagText(rest);
    }
  }

  // ---------- the parser ----------

  /** The tag that starts at s: everything up to the unescaped `=`, then up to the next stop. */
  function TagAt(buf: bytes, s: nat): (t: RawTag)
    requires s < |buf|
  {
    var k := NextStop(buf, s + 1, TagEnd);
    if k + 2 > |buf| then RawTag(buf[s..k], [])
    else RawTag(buf[s..k], buf[k + 1..NextStop(buf, k + 2, TagEnd)])
  }

  datatype TagParse = BadTags(err: Error, pos: nat) | GoodTags(pos: nat, starts: seq<nat>, tags: seq<RawTag>)

  /** scanTags: `starts` are the offsets it stores in `indices`, `tags` what lies there. */
  function ParseTags(buf: bytes, i: nat): (p: TagParse)
    requires i <= |buf|
    ensures i <= p.pos <= |buf|
    ensures p.GoodTags? ==> |p.starts| == |p.tags| > 0
    decreases |buf| - i
  {
    var k := TagKeyStep(buf, i);
    if k.1 != NoError then BadTags(k.1, k.0)
    else
      var v := TagValueStep(buf, k.0);
      if v.state.Stuck? then BadTags(v.err, v.pos)
      else if v.state.ToFields? then GoodTags(v.pos, [i], [TagAt(buf, i)])
      else
        var rest := ParseTags(buf, v.pos);
        if rest.BadTags? then rest else GoodTags(rest.pos, [i] + rest.starts, [TagAt(buf, i)] + rest.tags)
  }

  // ---------- one token ----------

  /** s is what buf holds from i on. */
  predicate At(buf: bytes, i: nat, s: bytes) {
    i + |s| <= |buf| && buf[i..i + |s|] == s
  }

  lemma AtSplit(buf: bytes, i: nat, a: bytes, b: bytes)
    ensures At(buf, i, a + b) <==> At(buf, i, a) && At(buf, i + |a|, b)
  {
    if At(buf, i, a + b) {
      assert buf[i..i + |a|] == (a + b)[..|a|];
      assert buf[i + |a|..i + |a| + |b|] == (a + b)[|a|..];
    }
    if At(buf, i, a) && At(buf, i + |a|, b) {
      assert buf[i..i + |a + b|] == buf[i..i + |a|] + buf[i + |a|..i + |a| + |b|];
    }
  }

  /** A clean token followed by a stop is scanned to its end. */
  lemma TokenIsScanned(buf: bytes, i: nat, s: bytes, stops: Stops)
    requires s != [] && Clean(s, stops) && s[|s| - 1] != BACKSLASH
    requires At(buf, i, s) && i + |s| < |buf| && IsStop(buf[i + |s|], stops)
    ensures NextStop(buf, i + 1, stops) == i + |s| && buf[i] == s[0] && buf[i..i + |s|] == s
  {
    forall x | i + 1 <= x < i + |s| ensures !StopAt(buf, x, stops) {
      assert !StopAt(s, x - i, stops) && buf[x] == s[x - i] && buf[x - 1] == s[x - i - 1];
    }
    assert buf[i + |s| - 1] == s[|s| - 1];
    NextStopUnique(buf, i + 1, stops, i + |s|);
  }

  /** What is scanned up to a stop is a clean token. */
  lemma ScannedIsToken(buf: bytes, i: nat, stops: Stops)
    requires i < |buf| && NextStop(buf, i + 1, stops) < |buf|
    ensures var s := buf[i..NextStop(buf, i + 1, stops)];
            s != [] && s[0] == buf[i] && Clean(s, stops) && s[|s| - 1] != BACKSLASH && At(buf, i, s)
  {
    var s := buf[i..NextStop(buf, i + 1, stops)];
    forall x | 1 <= x < |s| ensures !StopAt(s, x, stops) {
      assert !StopAt(buf, i + x, stops);
    }
  }

  // ---------- one tag ----------

  lemma TagParts(buf: bytes, i: nat, t: RawTag)
    ensures At(buf, i, PairText(t)) <==>
              At(buf, i, t.key) && i + |t.key| < |buf| && buf[i + |t.key|] == EQUALS
              && At(buf, i + |t.key| + 1, t.value)
  {
    var eq := i + |t.key|;
    AtSplit(buf, i, t.key, [EQUALS] + t.value);
    AtSplit(buf, eq, [EQUALS], t.value);
    assert eq < |buf| ==> buf[eq..eq + 1] == [buf[eq]];
    assert PairText(t) == t.key + ([EQUALS] + t.value);
  }

  /** The two steps that read a tag at i succeed, read t, and leave off at its end. */
  predicate ReadsTag(buf: bytes, i: nat, t: RawTag) {
    var end := i + |PairText(t)|;
    && end < |buf| && TagAt(buf, i) == t
    && TagKeyStep(buf, i) == (i + |t.key| + 1, NoError)
    && ((buf[end] == COMMA && TagValueStep(buf, i + |t.key| + 1) == Step(ToTags, end + 1, NoError))
        || (buf[end] == SPACE && TagValueStep(buf, i + |t.key| + 1) == Step(ToFields, end, NoError)))
  }

  /** A well-formed tag followed by a comma or a space is scanned as itself. */
  lemma TagIsScanned(buf: bytes, i: nat, t: RawTag)
    requires WellTag(t) && At(buf, i, PairText(t)) && i + |PairText(t)| < |buf|
    requires buf[i + |PairText(t)|] == COMMA || buf[i + |PairText(t)|] == SPACE
    ensures ReadsTag(buf, i, t)
  {
    hide NextStop, At, Clean;
    TagParts(buf, i, t);
    var eq := i + |t.key|;
    TokenIsScanned(buf, i, t.key, TagEnd);
    TokenIsScanned(buf, eq + 1, t.value, TagEnd);
  }

  /** What an accepted key step and value step have read is a well-formed tag. */
  lemma ScannedTagIsWell(buf: bytes, i: nat)
    requires i <= |buf| && TagKeyStep(buf, i).1.NoError? && !TagValueStep(buf, TagKeyStep(buf, i).0).state.Stuck?
    ensures i < |buf| && WellTag(TagAt(buf, i)) && At(buf, i, PairText(TagAt(buf, i)))
            && ReadsTag(buf, i, TagAt(buf, i))
  {
    hide NextStop, At, Clean;
    var k := NextStop(buf, i + 1, TagEnd);
    ScannedIsToken(buf, i, TagEnd);
    ScannedIsToken(buf, k + 1, TagEnd);
    TagParts(buf, i, TagAt(buf, i));
  }

  // ---------- all tags ----------

  /** Where each tag starts when the tags lie behind one another from i on. */
  function StartsFrom(i: nat, tags: seq<RawTag>): (starts: seq<nat>)
    requires tags != []
    ensures |starts| == |tags| && starts[0] == i
    decreases |tags|
  {
    if |tags| == 1 then [i] else [i] + StartsFrom(i + |PairText(tags[0])| + 1, tags[1..])
  }

  /** The tags lie at i and the space that ends the key follows at pos. */
  predicate Laid(buf: bytes, i: nat, pos: nat, tags: seq<RawTag>) {
    && tags != [] && WellTags(tags) && At(buf, i, TagBody(tags))
    && pos == i + |TagBody(tags)| < |buf| && buf[pos] == SPACE
  }

  lemma LaidHead(buf: bytes, i: nat, pos: nat, tags: seq<RawTag>)
    requires Laid(buf, i, pos, tags)
    ensures var end := i + |PairText(tags[0])|;
            At(buf, i, PairText(tags[0])) && end <= pos < |buf| && (|tags| == 1 ==> end == pos)
            && buf[end] == if |tags| == 1 then SPACE else COMMA
  {
    if |tags| > 1 { LaidTail(buf, i, pos, tags); }
  }

  lemma LaidTail(buf: bytes, i: nat, pos: nat, tags: seq<RawTag>)
    requires Laid(buf, i, pos, tags) && |tags| > 1
    ensures var end := i + |PairText(tags[0])|;
            At(buf, i, PairText(tags[0])) && end < |buf| && buf[end] == COMMA && Laid(buf, end + 1, pos, tags[1..])
  {
    var end := i + |PairText(tags[0])|;
    AtSplit(buf, i, PairText(tags[0]), [COMMA] + TagBody(tags[1..]));
    AtSplit(buf, end, [COMMA], TagBody(tags[1..]));
    assert buf[end] == [COMMA][0];
  }

  lemma LaidCons(buf: bytes, i: nat, pos: nat, t: RawTag, rest: seq<RawTag>)
    requires WellTag(t) && At(buf, i, PairText(t)) && i + |PairText(t)| < |buf| && buf[i + |PairText(t)|] == COMMA
    requires Laid(buf, i + |PairText(t)| + 1, pos, rest)
    ensures Laid(buf, i, pos, [t] + rest)
  {
    var end := i + |PairText(t)|;
    assert At(buf, end, [COMMA]);
    AtSplit(buf, end, [COMMA], TagBody(rest));
    AtSplit(buf, i, PairText(t), [COMMA] + TagBody(rest));
    assert ([t] + rest)[1..] == rest;
  }

  /** A parse from i reads one tag and goes on behind it. */
  lemma ParseOne(buf: bytes, i: nat, t: RawTag)
    requires WellTag(t) && At(buf, i, PairText(t)) && i + |PairText(t)| < |buf|
    requires buf[i + |PairText(t)|] == COMMA || buf[i + |PairText(t)|] == SPACE
    ensures ParseTags(buf, i) == Behind(i, t, buf, i + |PairText(t)|)
  {
    hide NextStop, At, WellTag, TagAt, TagKeyStep, TagValueStep;
    TagIsScanned(buf, i, t);
  }

  function Behind(i: nat, t: RawTag, buf: bytes, end: nat): (p: TagParse)
    requires end < |buf|
  {
    if buf[end] == SPACE then GoodTags(end, [i], [t])
    else
      var rest := ParseTags(buf, end + 1);
      if rest.BadTags? then rest else GoodTags(rest.pos, [i] + rest.starts, [t] + rest.tags)
  }

  lemma FirstTagOfParse(buf: bytes, i: nat) returns (t: RawTag)
    requires i <= |buf| && ParseTags(buf, i).GoodTags?
    ensures WellTag(t) && At(buf, i, PairText(t)) && i + |PairText(t)| < |buf|
    ensures buf[i + |PairText(t)|] == COMMA || buf[i + |PairText(t)|] == SPACE
    ensures ParseTags(buf, i) == Behind(i, t, buf, i + |PairText(t)|)
  {
    hide NextStop, At, WellTag, TagAt, TagKeyStep, TagValueStep;
    ScannedTagIsWell(buf, i);
    t := TagAt(buf, i);
  }

  lemma {:induction false} ParseIsSound(buf: bytes, i: nat)
    requires i <= |buf| && ParseTags(buf, i).GoodTags?
    ensures var p := ParseTags(buf, i); Laid(buf, i, p.pos, p.tags) && p.starts == StartsFrom(i, p.tags)
    decreases |buf| - i
  {
    hide ParseTags, At, PairText, WellTag;
    var t := FirstTagOfParse(buf, i);
    var end := i + |PairText(t)|;
    if buf[end] == COMMA {
      ParseIsSound(buf, end + 1);
      var rest := ParseTags(buf, end + 1);
      LaidCons(buf, i, rest.pos, t, rest.tags);
      assert ([t] + rest.tags)[1..] == rest.tags;
    }
  }

  /** Every text of the grammar is accepted and its tags come back as they were, so the
      parse of a line is unique. */
  lemma {:induction false} ParseIsComplete(buf: bytes, i: nat, pos: nat, tags: seq<RawTag>)
    requires Laid(buf, i, pos, tags)
    ensures ParseTags(buf, i) == GoodTags(pos, StartsFrom(i, tags), tags)
    decreases |tags|
  {
    hide ParseTags, At, PairText, WellTag;
    if |tags| == 1 {
      ParseOne(buf, i, tags[0]);
    } else {
      LaidTail(buf, i, pos, tags);
      ParseOne(buf, i, tags[0]);
      ParseIsComplete(buf, i + |PairText(tags[0])| + 1, pos, tags[1..]);
      assert tags == [tags[0]] + tags[1..];
    }
  }

  /** The j-th tag in place: the next one starts behind it, after a comma. */
  predicate InPlace(buf: bytes, i: nat, pos: nat, tags: seq<RawTag>, starts: seq<nat>, j: nat)
    requires j < |tags| == |starts|
  {
    var end := starts[j] + |PairText(tags[j])|;
    && i <= starts[j] <= end <= pos < |buf| && (0 < j ==> i < starts[j] && buf[starts[j] - 1] == COMMA)
    && At(buf, starts[j], PairText(tags[j])) && (buf[end] == COMMA || buf[end] == SPACE)
    && end == if j + 1 < |tags| then starts[j + 1] - 1 else pos
  }

  lemma {:induction false} TagInPlace(buf: bytes, i: nat, pos: nat, tags: seq<RawTag>, j: nat)
    requires Laid(buf, i, pos, tags) && j < |tags|
    ensures InPlace(buf, i, pos, tags, StartsFrom(i, tags), j)
    decreases |tags|
  {
    hide At, PairText, Laid;
    LaidHead(buf, i, pos, tags);
    if |tags| > 1 {
      var next, rest := i + |PairText(tags[0])| + 1, tags[1..];
      LaidTail(buf, i, pos, tags);
      var starts := StartsFrom(next, rest);
      assert StartsFrom(i, tags) == [i] + starts;
      if j > 0 {
        TagInPlace(buf, next, pos, rest, j - 1);
        assert tags[j] == rest[j - 1] && starts[j - 1] == ([i] + starts)[j];
      }
    }
  }

  // ---------- the whole key section ----------

  /** buf holds `name tags` from start to pos, followed by the space that ends the key. */
  predicate IsKeySection(buf: bytes, start: nat, pos: nat, name: bytes, tags: seq<RawTag>) {
    && WellName(name) && WellTags(tags) && At(buf, start, KeyText(name, tags))
    && pos == start + |KeyText(name, tags)| < |buf| && buf[pos] == SPACE
  }

  datatype KeyParse =
    | BadKey(err: Error, at: nat)
    | GoodKey(name: bytes, pos: nat, starts: seq<nat>, tags: seq<RawTag>)

  function ParseKey(buf: bytes, start: nat): (p: KeyParse)
    requires start <= |buf|
  {
    var m := MeasurementStep(buf, start);
    if m.state.Stuck? then BadKey(m.err, m.pos)
    else if m.state.ToFields? then GoodKey(buf[start..m.pos], m.pos, [], [])
    else
      var t := ParseTags(buf, m.pos);
      if t.BadTags? then BadKey(t.err, t.pos) else GoodKey(buf[start..m.pos - 1], t.pos, t.starts, t.tags)
  }

  lemma KeySectionParts(buf: bytes, start: nat, pos: nat, name: bytes, tags: seq<RawTag>)
    requires WellName(name) && WellTags(tags)
    ensures IsKeySection(buf, start, pos, name, tags) <==>
              var end := start + |name|;
              At(buf, start, name)
              && (if tags == [] then pos == end < |buf| && buf[pos] == SPACE
                  else end < |buf| && buf[end] == COMMA && Laid(buf, end + 1, pos, tags))
  {
    var end := start + |name|;
    AtSplit(buf, start, name, TagText(tags));
    if tags != [] {
      AtSplit(buf, end, [COMMA], TagBody(tags));
      assert end < |buf| ==> buf[end..end + 1] == [buf[end]];
    }
  }

  lemma NameOfParse(buf: bytes, start: nat)
    requires start <= |buf| && !MeasurementStep(buf, start).state.Stuck?
    ensures var m := MeasurementStep(buf, start);
            var end := if m.state.ToTags? then m.pos - 1 else m.pos;
            start <= end < |buf| && WellName(buf[start..end]) && At(buf, start, buf[start..end])
            && buf[end] == if m.state.ToTags? then COMMA else SPACE
  {
    ScannedIsToken(buf, start, SpaceOr(COMMA));
  }

  /** A line parses if and only if it has a key section, and then the name and the tags it
      finds are those of the section. */
  lemma KeyParseIsSound(buf: bytes, start: nat)
    requires start <= |buf| && ParseKey(buf, start).GoodKey?
    ensures var p := ParseKey(buf, start);
            IsKeySection(buf, start, p.pos, p.name, p.tags)
            && (if p.tags == [] then p.starts == []
                else start + |p.name| < |buf| && buf[start + |p.name|] == COMMA
                     && Laid(buf, start + |p.name| + 1, p.pos, p.tags)
                     && p.starts == StartsFrom(start + |p.name| + 1, p.tags))
  {
    hide ParseTags, At, PairText, WellTag, WellName, IsKeySection, MeasurementStep, StartsFrom;
    var m, p := MeasurementStep(buf, start), ParseKey(buf, start);
    NameOfParse(buf, start);
    if m.state.ToTags? { ParseIsSound(buf, m.pos); }
    KeySectionParts(buf, start, p.pos, p.name, p.tags);
  }

  lemma KeyParseIsComplete(buf: bytes, start: nat, pos: nat, name: bytes, tags: seq<RawTag>)
    requires IsKeySection(buf, start, pos, name, tags)
    ensures start <= |buf|
    ensures var p := ParseKey(buf, start); p.GoodKey? && p.pos == pos && p.name == name && p.tags == tags
  {
    hide ParseTags, At, PairText, NextStop, KeyText, Laid;
    KeySectionParts(buf, start, pos, name, tags);
    TokenIsScanned(buf, start, name, SpaceOr(COMMA));
    if tags != [] { ParseIsComplete(buf, start + |name| + 1, pos, tags); }
  }
}
