/** The field section of a point: scanFieldValue, walkFields and string escaping of
    models/points.go. */
module Fields {
  import opened Bytes
  import opened LineScan
  import opened KeyGrammar
  import opened KeyRoundTrip
  import opened Sequences

  // ---------- scanFieldValue ----------

  predicate EscapePair(buf: bytes, i: nat)
    requires i < |buf|
  {
    buf[i] == BACKSLASH && i + 1 < |buf| && (buf[i + 1] == QUOTE || buf[i + 1] == BACKSLASH)
  }

  /** Where a field value that is being read at i ends: at the first comma outside quotes. */
  function ValueEnd(buf: bytes, i: nat, quoted: bool): (e: nat)
    requires i <= |buf|
    ensures i <= e <= |buf| && (e < |buf| ==> buf[e] == COMMA)
    decreases |buf| - i
  {
    if i == |buf| then i
    else if EscapePair(buf, i) then ValueEnd(buf, i + 2, quoted)
    else if buf[i] == QUOTE then ValueEnd(buf, i + 1, !quoted)
    else if buf[i] == COMMA && !quoted then i
    else ValueEnd(buf, i + 1, quoted)
  }

  method ScanFieldValue(buf: bytes, start: nat) returns (i: nat, value: bytes)
    requires start <= |buf|
    ensures i == ValueEnd(buf, start, false) && value == buf[start..i]
  {
    i := start;
    var quoted := false;
    while i < |buf|
      invariant start <= i <= |buf| && ValueEnd(buf, i, quoted) == ValueEnd(buf, start, false)
    {
      if buf[i] == BACKSLASH && i + 1 < |buf| && (buf[i + 1] == QUOTE || buf[i + 1] == BACKSLASH) {
        i := i + 2;
        continue;
      }
      if buf[i] == QUOTE {
        i := i + 1;
        quoted := !quoted;
        continue;
      }
      if buf[i] == COMMA && !quoted { break; }
      i := i + 1;
    }
    value := buf[start..i];
  }

  // ---------- string values ----------

  /** EscapeStringField */
  function EscapeString(s: bytes): (r: bytes) {
    if s == [] then []
    else (if s[0] == QUOTE || s[0] == BACKSLASH then [BACKSLASH, s[0]] else [s[0]]) + EscapeString(s[1..])
  }

  /** unescapeStringField after its test for a backslash */
  function UnescapeString(s: bytes): (r: bytes) {
    if s == [] then []
    else if EscapePair(s, 0) then [s[1]] + UnescapeString(s[2..])
    else [s[0]] + UnescapeString(s[1..])
  }

  method UnescapeStringField(s: bytes) returns (r: bytes)
    ensures r == UnescapeString(s)
  {
    if BACKSLASH !in s {
      UnescapeWithoutBackslash(s);
      return s;
    }
    hide UnescapeString;
    r := [];
    var i := 0;
    while i < |s|
      invariant 0 <= i <= |s| && r + UnescapeString(s[i..]) == UnescapeString(s)
    {
      UnescapeAt(s, i);
      if s[i] == BACKSLASH && i + 1 < |s| && s[i + 1] == BACKSLASH {
        r := Extended(r, BACKSLASH, UnescapeString(s[i + 2..]));
        i := i + 2;
        continue;
      }
      if s[i] == BACKSLASH && i + 1 < |s| && s[i + 1] == QUOTE {
        r := Extended(r, QUOTE, UnescapeString(s[i + 2..]));
        i := i + 2;
        continue;
      }
      r := Extended(r, s[i], UnescapeString(s[i + 1..]));
      i := i + 1;
    }
    NothingToUnescape();
    assert s[i..] == [];
  }

  function Extended(r: bytes, b: byte, ghost rest: bytes): (e: bytes)
    ensures e + rest == r + ([b] + rest)
  {
    r + [b]
  }

  lemma NothingToUnescape()
    ensures UnescapeString([]) == []
  {
  }

  lemma UnescapeAt(s: bytes, i: nat)
    requires i < |s|
    ensures UnescapeString(s[i..]) ==
              if EscapePair(s, i) then [s[i + 1]] + UnescapeString(s[i + 2..]) else [s[i]] + UnescapeString(s[i + 1..])
  {
    assert s[i..][1..] == s[i + 1..];
    if EscapePair(s, i) { assert s[i..][2..] == s[i + 2..]; }
  }

  lemma {:induction false} UnescapeWithoutBackslash(s: bytes)
    requires BACKSLASH !in s
    ensures UnescapeString(s) == s
  {
    if s != [] {
      UnescapeWithoutBackslash(s[1..]);
      assert s[0] in s;
    }
  }

  /** For every string: unescaping the escaped string gives it back. */
  lemma {:induction false} UnescapeUndoesEscapeString(s: bytes)
    ensures UnescapeString(EscapeString(s)) == s
  {
    if s != [] {
      var e, tail := EscapeString(s), EscapeString(s[1..]);
      UnescapeUndoesEscapeString(s[1..]);
      assert s == [s[0]] + s[1..];
      if s[0] == QUOTE || s[0] == BACKSLASH {
        assert e[2..] == tail;
      } else {
        assert e[1..] == tail;
      }
    }
  }

  // ---------- values that can be told apart ----------

  /** A value as appendField writes it: a quoted string, or a number or boolean. */
  datatype FieldValue = Quoted(s: bytes) | Plain(token: bytes)

  predicate WellValue(v: FieldValue) {
    v.Plain? ==>
      forall k :: 0 <= k < |v.token| ==> v.token[k] != COMMA && v.token[k] != QUOTE && v.token[k] != BACKSLASH
  }

  function ValueText(v: FieldValue): (t: bytes) {
    match v
    case Quoted(s) => [QUOTE] + EscapeString(s) + [QUOTE]
    case Plain(token) => token
  }

  lemma AtByte(buf: bytes, i: nat, b: byte)
    ensures At(buf, i, [b]) ==> i < |buf| && buf[i] == b
  {
    if At(buf, i, [b]) { assert buf[i] == [b][0]; }
  }

  lemma {:induction false} QuotedIsScanned(buf: bytes, i: nat, s: bytes)
    requires At(buf, i, EscapeString(s) + [QUOTE])
    ensures ValueEnd(buf, i, true) == ValueEnd(buf, i + |EscapeString(s)| + 1, false)
    decreases |s|
  {
    hide At;
    var e := EscapeString(s);
    if s == [] {
      assert e + [QUOTE] == [QUOTE];
      AtByte(buf, i, QUOTE);
    } else {
      var tail := EscapeString(s[1..]);
      var head := if s[0] == QUOTE || s[0] == BACKSLASH then [BACKSLASH, s[0]] else [s[0]];
      assert e + [QUOTE] == head + (tail + [QUOTE]);
      AtSplit(buf, i, head, tail + [QUOTE]);
      if |head| == 1 {
        AtByte(buf, i, s[0]);
      } else {
        assert head == [BACKSLASH] + [s[0]];
        AtSplit(buf, i, [BACKSLASH], [s[0]]);
        AtByte(buf, i, BACKSLASH);
        AtByte(buf, i + 1, s[0]);
      }
      QuotedIsScanned(buf, i + |head|, s[1..]);
    }
  }

  lemma {:induction false} PlainIsScanned(buf: bytes, i: nat, token: bytes)
    requires WellValue(Plain(token)) && At(buf, i, token)
    ensures ValueEnd(buf, i, false) == ValueEnd(buf, i + |token|, false)
    decreases |token|
  {
    if token != [] {
      assert token == [token[0]] + token[1..];
      AtSplit(buf, i, [token[0]], token[1..]);
      assert buf[i] == [token[0]][0] == token[0];
      assert WellValue(Plain(token[1..]));
      PlainIsScanned(buf, i + 1, token[1..]);
    }
  }

  lemma ValueIsScanned(buf: bytes, i: nat, v: FieldValue)
    requires WellValue(v) && At(buf, i, ValueText(v))
    requires i + |ValueText(v)| == |buf| || buf[i + |ValueText(v)|] == COMMA
    ensures ValueEnd(buf, i, false) == i + |ValueText(v)|
  {
    match v
    case Plain(token) => PlainIsScanned(buf, i, token);
    case Quoted(s) =>
      var e := EscapeString(s);
      assert ValueText(v) == [QUOTE] + (e + [QUOTE]);
      AtSplit(buf, i, [QUOTE], e + [QUOTE]);
      assert buf[i] == [QUOTE][0];
      QuotedIsScanned(buf, i + 1, s);
  }

  // ---------- walkFields ----------

  datatype Field = Field(key: bytes, value: bytes)

  /** The fields passed on before the walk ends or fails. */
  datatype Walk = Walk(fields: seq<Field>, ok: bool)

  /** The first field of a buffer and what follows its comma, if it has a value. */
  datatype Cut = NoValue | Cut(key: bytes, value: bytes, next: bytes)

  function CutField(buf: bytes): (c: Cut)
    requires buf != []
    ensures c.Cut? ==> |c.next| < |buf|
  {
    var i := NextStop(buf, 0, One(EQUALS));
    if i > |buf| - 2 then NoValue
    else
      var rest := buf[i + 1..];
      var e := ValueEnd(rest, 0, false);
      Cut(buf[..i], rest[..e], if e < |rest| then rest[e + 1..] else [])
  }

  function WalkFields(buf: bytes): (w: Walk)
    decreases |buf|
  {
    if buf == [] then Walk([], true)
    else
      match CutField(buf)
      case NoValue => Walk([], false)
      case Cut(key, value, next) =>
        var w := WalkFields(next);
        Walk([Field(key, value)] + w.fields, w.ok)
  }

  method WalkAllFields(given: bytes) returns (fields: seq<Field>, ok: bool)
    ensures Walk(fields, ok) == WalkFields(given)
  {
    hide CutField;
    var buf := given;
    fields := [];
    while |buf| > 0
      invariant WalkFields(given).fields == fields + WalkFields(buf).fields
      invariant WalkFields(given).ok == WalkFields(buf).ok
      decreases |buf|
    {
      var cut := NextField(buf);
      if cut.NoValue? { return fields, false; }
      fields, buf := AddField(fields, cut.key, cut.value, WalkFields(cut.next).fields), cut.next;
    }
    ok := true;
  }

  /** The body of walkFields' loop. */
  method NextField(given: bytes) returns (cut: Cut)
    requires given != []
    ensures cut == CutField(given)
  {
    hide NextStop, ValueEnd;
    var buf := given;
    var i, key := ScanTo(buf, 0, EQUALS);
    if i > |buf| - 2 { return NoValue; }
    buf := buf[i + 1..];
    var value;
    i, value := ScanFieldValue(buf, 0);
    buf := buf[i..];
    if |buf| > 0 { buf := buf[1..]; }
    cut := Cut(key, value, buf);
  }

  /** Appends a field to those seen so far. */
  function AddField(fields: seq<Field>, key: bytes, value: bytes, ghost rest: seq<Field>): (r: seq<Field>)
    ensures r + rest == fields + ([Field(key, value)] + rest)
  {
    fields + [Field(key, value)]
  }

  // ---------- the text of a field list ----------

  /** A field to be printed: a raw key and a value. */
  datatype RawField = RawField(key: bytes, value: FieldValue)

  predicate WellField(f: RawField) {
    Free(f.key, One(EQUALS)) && !EndsInBackslash(f.key) && WellValue(f.value)
  }

  function FieldText(f: RawField): (t: bytes) {
    f.key + ([EQUALS] + ValueText(f.value))
  }

  function FieldsText(fs: seq<RawField>): (t: bytes) {
    if fs == [] then []
    else if |fs| == 1 then FieldText(fs[0])
    else FieldText(fs[0]) + ([COMMA] + FieldsText(fs[1..]))
  }

  function Raw(fs: seq<RawField>): (r: seq<Field>)
    ensures |r| == |fs| && forall i :: 0 <= i < |fs| ==> r[i] == Field(fs[i].key, ValueText(fs[i].value))
  {
    seq(|fs|, i requires 0 <= i < |fs| => Field(fs[i].key, ValueText(fs[i].value)))
  }

  /** A printed field at the front of a buffer is cut at its own equals sign and its own end. */
  lemma FieldIsCut(f: RawField, rest: bytes, next: bytes)
    requires WellField(f) && (rest == [] || rest == [COMMA] + next) && (rest == [] ==> next == [])
    requires rest == [] ==> ValueText(f.value) != []
    ensures FieldText(f) + rest != [] && CutField(FieldText(f) + rest) == Cut(f.key, ValueText(f.value), next)
  {
    hide ValueEnd, NextStop, ValueText, WellValue, Free, At, CutField, EndsInBackslash, FieldText;
    var k, v := f.key, ValueText(f.value);
    var buf := FieldText(f) + rest;
    FieldTextParts(f, rest);
    EqualsStops(k, v + rest);
    ScanExact(buf, 0, k, One(EQUALS));
    AtFront(v, rest);
    ValueIsScanned(v + rest, 0, f.value);
    CutFrom(k, v, rest, next);
  }

  lemma FieldTextParts(f: RawField, rest: bytes)
    ensures FieldText(f) + rest == f.key + ([EQUALS] + (ValueText(f.value) + rest))
  {
    hide ValueText;
  }

  lemma AtFront(a: bytes, b: bytes)
    ensures At(a + b, 0, a)
  {
    Slices(a, b);
  }

  /** An equals sign behind a key that does not end in a backslash is where the key ends. */
  lemma EqualsStops(k: bytes, rest: bytes)
    requires !EndsInBackslash(k)
    ensures var buf := k + ([EQUALS] + rest);
            At(buf, 0, k) && |k| < |buf| && StopAt(buf, |k|, One(EQUALS))
  {
    AtFront(k, [EQUALS] + rest);
  }

  lemma CutFrom(k: bytes, v: bytes, rest: bytes, next: bytes)
    requires var buf := k + ([EQUALS] + (v + rest));
             NextStop(buf, 0, One(EQUALS)) == |k| && ValueEnd(v + rest, 0, false) == |v|
    requires (rest == [] && next == [] && v != []) || rest == [COMMA] + next
    ensures CutField(k + ([EQUALS] + (v + rest))) == Cut(k, v, next)
  {
    hide NextStop, ValueEnd;
    var buf := k + ([EQUALS] + (v + rest));
    Slices(k, [EQUALS] + (v + rest));
    Slices(k + [EQUALS], v + rest);
    assert buf == (k + [EQUALS]) + (v + rest);
    Slices(v, rest);
    if rest != [] {
      Slices(v + [COMMA], next);
      assert v + rest == (v + [COMMA]) + next;
    }
  }

  lemma EmptyLastValueIsRefused(f: RawField)
    requires WellField(f) && ValueText(f.value) == []
    ensures FieldText(f) != [] && CutField(FieldText(f)) == NoValue
  {
    hide NextStop, ValueEnd, ValueText, WellValue, Free, At, EndsInBackslash, FieldText;
    FieldTextParts(f, []);
    assert FieldText(f) + [] == FieldText(f) && ValueText(f.value) + [] == [];
    EqualsStops(f.key, []);
    ScanExact(FieldText(f), 0, f.key, One(EQUALS));
  }

  /** Whether the last of the fields, if any, has a value text. */
  predicate LastHasValue(fs: seq<RawField>) {
    fs == [] || ValueText(fs[|fs| - 1].value) != []
  }

  /** Walking the printed field list succeeds if and only if the last value is not empty. It
      yields exactly that list, without its last field where it fails. */
  lemma {:induction false} WalkUndoesPrint(fs: seq<RawField>)
    requires forall i :: 0 <= i < |fs| ==> WellField(fs[i])
    ensures WalkFields(FieldsText(fs)) ==
            if LastHasValue(fs) then Walk(Raw(fs), true) else Walk(Raw(fs[..|fs| - 1]), false)
  {
    hide WellField, ValueText, FieldText, Raw, CutField;
    if fs == [] {
      assert Raw(fs) == [];
    } else if |fs| == 1 {
      if LastHasValue(fs) { FieldIsCut(fs[0], [], []); } else { EmptyLastValueIsRefused(fs[0]); }
      assert FieldText(fs[0]) + [] == FieldText(fs[0]) && WalkFields([]) == Walk([], true);
      assert Raw(fs) == [Field(fs[0].key, ValueText(fs[0].value))] && Raw(fs[..0]) == [];
    } else {
      var rest := fs[1..];
      assert forall i :: 0 <= i < |rest| ==> rest[i] == fs[i + 1];
      WalkUndoesPrint(rest);
      FieldIsCut(fs[0], [COMMA] + FieldsText(rest), FieldsText(rest));
      RawOfRest(fs);
      RawOfRest(fs[..|fs| - 1]);
      assert fs[..|fs| - 1][1..] == rest[..|rest| - 1];
    }
  }

  lemma RawOfRest(fs: seq<RawField>)
    ensures fs != [] ==> Raw(fs) == [Field(fs[0].key, ValueText(fs[0].value))] + Raw(fs[1..])
  {
    hide ValueText;
  }
}
