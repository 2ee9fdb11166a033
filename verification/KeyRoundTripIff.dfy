/** Exactly when a printed key parses back: every tag that the walk reads uses up one unescaped
    comma and one unescaped equals sign, and a backslash before a separator takes one away. */
module KeyRoundTripIff {
  import opened Bytes
  import opened Escaping
  import opened KeyGrammar
  import opened KeyRoundTrip
  import opened KeyTexts
  import opened LineScan

  // ---------- counting unescaped bytes ----------

  /** The unescaped stops in s; escaped says whether a backslash stands before s. */
  function Count(s: bytes, stop: byte, escaped: bool): (n: nat) {
    if s == [] then 0
    else (if s[0] == stop && !escaped then 1 else 0) + Count(s[1..], stop, s[0] == BACKSLASH)
  }

  function After(s: bytes, escaped: bool): (e: bool) {
    if s == [] then escaped else EndsInBackslash(s)
  }

  lemma {:induction false} CountOfConcat(a: bytes, b: bytes, stop: byte, escaped: bool)
    ensures Count(a + b, stop, escaped) == Count(a, stop, escaped) + Count(b, stop, After(a, escaped))
  {
    if a == [] {
      assert a + b == b;
    } else {
      assert (a + b)[1..] == a[1..] + b;
      CountOfConcat(a[1..], b, stop, a[0] == BACKSLASH);
    }
  }

  lemma CountOfByte(b: byte, stop: byte, escaped: bool)
    ensures Count([b], stop, escaped) == if b == stop && !escaped then 1 else 0
  {
    assert Count([b][1..], stop, b == BACKSLASH) == 0;
  }

  predicate Escapes(s: bytes, stop: byte, escaped: bool, k: nat)
    requires k < |s|
  {
    s[k] == stop ==> if k == 0 then escaped else s[k - 1] == BACKSLASH
  }

  lemma {:induction false} NoneToCount(s: bytes, stop: byte, escaped: bool)
    requires forall k :: 0 <= k < |s| ==> Escapes(s, stop, escaped, k)
    ensures Count(s, stop, escaped) == 0
  {
    if s != [] {
      var rest, after := s[1..], s[0] == BACKSLASH;
      assert Escapes(s, stop, escaped, 0);
      forall k | 0 <= k < |rest| ensures Escapes(rest, stop, after, k) {
        assert Escapes(s, stop, escaped, k + 1);
      }
      NoneToCount(rest, stop, after);
    }
  }

  lemma FreeHasNone(s: bytes, stop: byte, escaped: bool)
    requires Free(s, One(stop))
    ensures Count(s, stop, escaped) == 0
  {
    forall k | 0 <= k < |s| ensures Escapes(s, stop, escaped, k) {
      assert !StopAt(s, k, One(stop));
    }
    NoneToCount(s, stop, escaped);
  }

  /** The unescaped stops of a buffer from i on. */
  function CountFrom(buf: bytes, i: nat, stop: byte): (n: nat)
    requires i <= |buf|
  {
    Count(buf[i..], stop, i > 0 && buf[i - 1] == BACKSLASH)
  }

  lemma CountShrinks(buf: bytes, i: nat, j: nat, stop: byte)
    requires i <= j <= |buf|
    ensures CountFrom(buf, j, stop) <= CountFrom(buf, i, stop)
  {
    hide Count;
    assert buf[i..] == buf[i..j] + buf[j..];
    CountOfConcat(buf[i..j], buf[j..], stop, i > 0 && buf[i - 1] == BACKSLASH);
    if i < j { assert buf[i..j][j - i - 1] == buf[j - 1]; }
  }

  lemma StopIsCounted(buf: bytes, i: nat, k: nat, stop: byte)
    requires i <= k < |buf| && StopAt(buf, k, One(stop)) && stop != BACKSLASH
    ensures CountFrom(buf, k + 1, stop) < CountFrom(buf, i, stop)
  {
    hide Count;
    CountShrinks(buf, i, k, stop);
    assert buf[k..] == [stop] + buf[k + 1..];
    CountOfConcat([stop], buf[k + 1..], stop, false);
    CountOfByte(stop, stop, false);
  }

  // ---------- the walk uses them up ----------

  /** One round finds at most one tag, behind an unescaped equals sign, and goes on behind an
      unescaped comma or ends. */
  lemma RoundFacts(buf: bytes, i: nat)
    requires i < |buf|
    ensures var r, k := Round(buf, i), NextStop(buf, i, One(EQUALS));
            && |r.found| <= 1 && i < r.next && (k == |buf| ==> r.found == [] && r.next > |buf|)
            && (k < |buf| ==> k < r.next && StopAt(buf, k, One(EQUALS)))
            && (r.found != [] && r.next <= |buf| ==> StopAt(buf, r.next - 1, One(COMMA)))
  {
    hide NextStop;
  }

  lemma WalkLength(buf: bytes, i: nat)
    ensures i < |buf| ==> |WalkFrom(buf, i)| == |Round(buf, i).found| + |WalkFrom(buf, Round(buf, i).next)|
    ensures i >= |buf| ==> |WalkFrom(buf, i)| == 0
  {
    hide Round;
  }

  lemma {:induction false} WalkUsesCommas(buf: bytes, i: nat)
    requires i <= |buf|
    ensures |WalkFrom(buf, i)| <= 1 + CountFrom(buf, i, COMMA)
    decreases |buf| - i
  {
    hide NextStop, CountFrom, Round, WalkFrom, StopAt;
    WalkLength(buf, i);
    if i < |buf| {
      var next := Round(buf, i).next;
      RoundFacts(buf, i);
      WalkLength(buf, next);
      if next <= |buf| {
        WalkUsesCommas(buf, next);
        CountShrinks(buf, i, next, COMMA);
        if Round(buf, i).found != [] { StopIsCounted(buf, i, next - 1, COMMA); }
      }
    }
  }

  lemma {:induction false} WalkUsesEquals(buf: bytes, i: nat)
    requires i <= |buf|
    ensures |WalkFrom(buf, i)| <= CountFrom(buf, i, EQUALS)
    decreases |buf| - i
  {
    hide NextStop, CountFrom, Round, WalkFrom, StopAt;
    WalkLength(buf, i);
    if i < |buf| {
      var next, k := Round(buf, i).next, NextStop(buf, i, One(EQUALS));
      RoundFacts(buf, i);
      WalkLength(buf, next);
      if k < |buf| {
        StopIsCounted(buf, i, k, EQUALS);
        if next <= |buf| {
          WalkUsesEquals(buf, next);
          CountShrinks(buf, k + 1, next, EQUALS);
        }
      }
    }
  }

  lemma TagsUseCommas(buf: bytes)
    ensures |WalkTags(buf)| <= CountFrom(buf, 0, COMMA)
  {
    hide NextStop, CountFrom, WalkFrom;
    var pos := NextStop(buf, 0, One(COMMA));
    if pos < |buf| {
      StopIsCounted(buf, 0, pos, COMMA);
      WalkUsesCommas(buf, pos + 1);
    } else {
      NothingToWalk(buf);
    }
  }

  lemma NothingToWalk(buf: bytes)
    ensures WalkFrom(buf, |buf| + 1) == []
  {
  }

  // ---------- what a printed key has ----------

  /** Printed tags: nothing in them but the separators is an unescaped separator. */
  predicate Quiet(e: seq<RawTag>) {
    forall i :: 0 <= i < |e| ==> QuietTag(e[i])
  }

  predicate QuietTag(t: RawTag) {
    && t.value != [] && Free(t.key, One(COMMA)) && Free(t.key, One(EQUALS))
    && Free(t.value, One(COMMA)) && Free(t.value, One(EQUALS))
  }

  /** Values before the last one that end in a backslash, and keys that do. */
  function ClosedValues(e: seq<RawTag>): (n: nat) {
    if |e| <= 1 then 0 else (if EndsInBackslash(e[0].value) then 1 else 0) + ClosedValues(e[1..])
  }

  function ClosedKeys(e: seq<RawTag>): (n: nat) {
    if e == [] then 0 else (if EndsInBackslash(e[0].key) then 1 else 0) + ClosedKeys(e[1..])
  }

  lemma PairCounts(t: RawTag)
    requires QuietTag(t)
    ensures Count(PairText(t), COMMA, false) == 0
    ensures Count(PairText(t), EQUALS, false) == if EndsInBackslash(t.key) then 0 else 1
    ensures After(PairText(t), false) == EndsInBackslash(t.value)
  {
    hide Count, Free;
    var k, v := t.key, t.value;
    assert PairText(t) == k + ([EQUALS] + v);
    FreeHasNone(k, COMMA, false);
    FreeHasNone(k, EQUALS, false);
    FreeHasNone(v, COMMA, false);
    FreeHasNone(v, EQUALS, false);
    CountOfConcat(k, [EQUALS] + v, COMMA, false);
    CountOfConcat(k, [EQUALS] + v, EQUALS, false);
    CountOfConcat([EQUALS], v, COMMA, After(k, false));
    CountOfConcat([EQUALS], v, EQUALS, After(k, false));
    CountOfByte(EQUALS, COMMA, After(k, false));
    CountOfByte(EQUALS, EQUALS, After(k, false));
  }

  lemma {:induction false} BodyCounts(e: seq<RawTag>)
    requires e != [] && Quiet(e)
    ensures Count(TagBody(e), COMMA, false) == |e| - 1 - ClosedValues(e)
    ensures Count(TagBody(e), EQUALS, false) == |e| - ClosedKeys(e)
  {
    hide Count, PairText, QuietTag, EndsInBackslash;
    PairCounts(e[0]);
    if |e| > 1 {
      var pair, body := PairText(e[0]), TagBody(e[1..]);
      BodyCounts(e[1..]);
      CountOfConcat(pair, [COMMA] + body, COMMA, false);
      CountOfConcat(pair, [COMMA] + body, EQUALS, false);
      CommaThen(body, COMMA, After(pair, false));
      CommaThen(body, EQUALS, After(pair, false));
    } else {
      assert ClosedKeys(e[1..]) == 0;
    }
  }

  lemma CommaThen(s: bytes, stop: byte, escaped: bool)
    ensures Count([COMMA] + s, stop, escaped) == (if stop == COMMA && !escaped then 1 else 0) + Count(s, stop, false)
  {
    assert ([COMMA] + s)[1..] == s;
  }

  lemma {:induction false} OpenIff(e: seq<RawTag>)
    ensures ClosedValues(e) == 0 && ClosedKeys(e) == 0 <==>
            forall i :: 0 <= i < |e| ==> SeparableTag(e[i], i + 1 == |e|)
  {
    if e != [] {
      var rest := e[1..];
      OpenIff(rest);
      assert SeparableTag(e[0], 0 + 1 == |e|) <==>
             !EndsInBackslash(e[0].key) && (|e| == 1 || !EndsInBackslash(e[0].value));
      RestSeparable(e);
    }
  }

  lemma RestSeparable(e: seq<RawTag>)
    requires e != []
    ensures (forall i :: 0 <= i < |e| ==> SeparableTag(e[i], i + 1 == |e|)) <==>
            SeparableTag(e[0], |e| == 1) && forall i :: 0 <= i < |e[1..]| ==> SeparableTag(e[1..][i], i + 1 == |e[1..]|)
  {
    hide SeparableTag;
    var rest := e[1..];
    if SeparableTag(e[0], |e| == 1) && forall i :: 0 <= i < |rest| ==> SeparableTag(rest[i], i + 1 == |rest|) {
      forall i | 0 <= i < |e| ensures SeparableTag(e[i], i + 1 == |e|) {
        if i > 0 { assert SeparableTag(rest[i - 1], i - 1 + 1 == |rest|); }
      }
    }
    if forall i :: 0 <= i < |e| ==> SeparableTag(e[i], i + 1 == |e|) {
      assert SeparableTag(e[0], 0 + 1 == |e|);
      forall i | 0 <= i < |rest| ensures SeparableTag(rest[i], i + 1 == |rest|) {
        assert SeparableTag(e[i + 1], i + 1 + 1 == |e|);
      }
    }
  }

  /** The commas of a whole printed key: one for each tag, less those behind a backslash. */
  lemma KeyCommas(n: bytes, e: seq<RawTag>)
    requires n != [] && Free(n, One(COMMA)) && e != [] && Quiet(e)
    ensures CountFrom(n + TagText(e), 0, COMMA) == |e| - ClosedValues(e) - if EndsInBackslash(n) then 1 else 0
  {
    hide Count, TagBody, Quiet, Free;
    BodyCounts(e);
    var text := TagText(e);
    assert (n + text)[0..] == n + text;
    FreeHasNone(n, COMMA, false);
    CountOfConcat(n, text, COMMA, false);
    CommaThen(TagBody(e), COMMA, EndsInBackslash(n));
  }

  /** The equals signs of its tags, once the first comma ends the name. */
  lemma KeyEquals(n: bytes, e: seq<RawTag>)
    requires e != [] && Quiet(e)
    ensures |n + TagText(e)| > |n| && CountFrom(n + TagText(e), |n| + 1, EQUALS) == |e| - ClosedKeys(e)
  {
    hide Count, TagBody, Quiet;
    BodyCounts(e);
    BehindName(n, TagBody(e));
    var buf := n + TagText(e);
    assert buf[|n| + 1..|buf|] == buf[|n| + 1..];
  }

  /** A printed key whose tags are all read back has no backslash before a separator. */
  lemma WalkedMeansOpen(n: bytes, e: seq<RawTag>)
    requires n != [] && Free(n, One(COMMA)) && e != [] && Quiet(e)
    requires |WalkTags(n + TagText(e))| >= |e|
    ensures !EndsInBackslash(n) && ClosedValues(e) == 0 && ClosedKeys(e) == 0
  {
    hide CountFrom, Quiet, TagText, EndsInBackslash, WalkFrom, NextStop, Free, ClosedKeys, ClosedValues;
    var buf := n + TagText(e);
    KeyCommas(n, e);
    TagsUseCommas(buf);
    KeyEquals(n, e);
    NameEndsAtComma(n, e);
    WalkStart(buf, |n|);
    WalkUsesEquals(buf, |n| + 1);
  }

  lemma NameEndsAtComma(n: bytes, e: seq<RawTag>)
    requires n != [] && Free(n, One(COMMA)) && e != []
    ensures !EndsInBackslash(n) ==> NextStop(n + TagText(e), 0, One(COMMA)) == |n|
  {
    hide NextStop, TagBody, Free;
    var buf := n + TagText(e);
    if !EndsInBackslash(n) {
      assert buf[0..|n|] == n && buf[|n|] == COMMA && buf[|n| - 1] == n[|n| - 1];
      ScanExact(buf, 0, n, One(COMMA));
    }
  }

  // ---------- the theorem ----------

  lemma EscapedTagsAreQuiet(e: seq<RawTag>)
    requires forall i :: 0 <= i < |e| ==> e[i].value != []
    ensures Quiet(EscapedTags(e))
  {
    hide EscapeFrom, Free;
    forall i | 0 <= i < |e| ensures QuietTag(EscapedTags(e)[i]) {
      EscapedTagIsQuiet(e[i]);
    }
  }

  lemma EscapedTagIsQuiet(t: RawTag)
    ensures t.value != [] ==> QuietTag(EscapedTag(t))
    ensures EndsInBackslash(EscapedTag(t).key) == EndsInBackslash(t.key)
    ensures EndsInBackslash(EscapedTag(t).value) == EndsInBackslash(t.value)
  {
    hide EscapeFrom, Free, EndsInBackslash, Distinct, Hides;
    TagCodesHide();
    EscapeForScan(t.key, TAG_CODES, One(COMMA));
    EscapeForScan(t.key, TAG_CODES, One(EQUALS));
    EscapeForScan(t.value, TAG_CODES, One(COMMA));
    EscapeForScan(t.value, TAG_CODES, One(EQUALS));
  }

  lemma EscapedSeparable(e: seq<RawTag>)
    requires forall i :: 0 <= i < |e| ==> SeparableTag(EscapedTags(e)[i], i + 1 == |e|)
    ensures forall i :: 0 <= i < |e| ==> SeparableTag(e[i], i + 1 == |e|)
  {
    hide EscapedTag;
    forall i | 0 <= i < |e| ensures SeparableTag(e[i], i + 1 == |e|) {
      EscapedTagIsQuiet(e[i]);
      assert SeparableTag(EscapedTags(e)[i], i + 1 == |e|);
    }
  }

  lemma {:induction false} UnescapedIsNotEmpty(s: bytes, codes: seq<byte>)
    requires s != []
    ensures RestoreFrom(s, codes) != [] && Unescape(s, codes) != []
    decreases |codes|
  {
    if codes != [] { UnescapedIsNotEmpty(if codes[0] in s then RestoreByte(s, codes[0]) else s, codes[1..]); }
  }

  /** Parsing a printed key gives back its name, unescaped, and its tags with non-empty values if
      and only if no backslash stands right before a separator. */
  lemma RoundTripIff(name: bytes, tags: seq<RawTag>)
    requires name != []
    ensures ParseKeyBytes(MakeKey(name, tags)) == Parsed(Unescape(name, MEASUREMENT_CODES), Emitted(tags))
       <==> Printable(Unescape(name, MEASUREMENT_CODES), tags)
  {
    hide Unescape, EscapeFrom, WalkTags, TagText, MakeKey, ParseKeyBytes, SeparableTag, Quiet, Distinct, Hides, Free;
    var u, e := Unescape(name, MEASUREMENT_CODES), Emitted(tags);
    UnescapedIsNotEmpty(name, MEASUREMENT_CODES);
    if Printable(u, tags) {
      ParseUndoesMake(name, tags);
    } else if ParseKeyBytes(MakeKey(name, tags)).tags == e {
      var n, printed := EscapeFrom(u, MEASUREMENT_CODES), EscapedTags(e);
      TagCodesHide();
      EscapeForScan(u, MEASUREMENT_CODES, One(COMMA));
      EscapedTagsAreQuiet(e);
      AllTagsWalked(name, tags);
      WalkedMeansOpen(n, printed);
      OpenIff(printed);
      EscapedSeparable(e);
    }
  }

  lemma AllTagsWalked(name: bytes, tags: seq<RawTag>)
    requires ParseKeyBytes(MakeKey(name, tags)).tags == Emitted(tags) != []
    ensures var n := EscapeFrom(Unescape(name, MEASUREMENT_CODES), MEASUREMENT_CODES);
            |WalkTags(n + TagText(EscapedTags(Emitted(tags))))| == |Emitted(tags)|
  {
    hide Unescape, EscapeFrom, WalkTags, TagText, MeasurementStep, EscapedTags, Emitted;
    EmittedOfEscaped(tags);
  }

  /** The measurement a with the tag key b\ and the value c does not come back. */
  lemma BackslashBreaksRoundTrip()
    ensures var tags := [RawTag([98, BACKSLASH], [99])];
            Emitted(tags) == tags && ParseKeyBytes(MakeKey([97], tags)) != Parsed([97], tags)
  {
    hide ParseKeyBytes, MakeKey;
    var name, tags: seq<RawTag> := [97], [RawTag([98, BACKSLASH], [99])];
    assert tags[..0] == [] && tags[1..] == [];
    assert Emitted(tags) == tags;
    assert !SeparableTag(tags[0], true);
    RoundTripIff(name, tags);
  }
}
