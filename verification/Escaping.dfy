/** Escaping and unescaping of names, tags and string fields (models/points.go). */
module Escaping {
  import opened Bytes

  /** bytes.Replace(in, k, "\\" k, -1) */
  function ReplaceByte(s: bytes, k: byte): (r: bytes) {
    if s == [] then [] else (if s[0] == k then [BACKSLASH, k] else [s[0]]) + ReplaceByte(s[1..], k)
  }

  /** bytes.Replace(in, "\\" k, k, -1): matches are taken from the left and do not overlap. */
  function RestoreByte(s: bytes, k: byte): (r: bytes) {
    if |s| < 2 then s
    else if s[0] == BACKSLASH && s[1] == k then [k] + RestoreByte(s[2..], k)
    else [s[0]] + RestoreByte(s[1..], k)
  }

  const MEASUREMENT_CODES: seq<byte> := [COMMA, SPACE]
  const TAG_CODES: seq<byte> := [COMMA, SPACE, EQUALS]

  function EscapeFrom(s: bytes, codes: seq<byte>): (r: bytes)
    decreases |codes|
  {
    if codes == [] then s
    else EscapeFrom(if codes[0] in s then ReplaceByte(s, codes[0]) else s, codes[1..])
  }

  function RestoreFrom(s: bytes, codes: seq<byte>): (r: bytes)
    decreases |codes|
  {
    if codes == [] then s
    else RestoreFrom(if codes[0] in s then RestoreByte(s, codes[0]) else s, codes[1..])
  }

  /** escapeTag and EscapeMeasurement, according to the codes */
  method Escape(s: bytes, codes: seq<byte>) returns (r: bytes)
    ensures r == EscapeFrom(s, codes)
  {
    r := s;
    for i := 0 to |codes|
      invariant EscapeFrom(r, codes[i..]) == EscapeFrom(s, codes)
    {
      assert codes[i..][1..] == codes[i + 1..];
      if codes[i] in r { r := ReplaceByte(r, codes[i]); }
    }
  }

  /** unescapeTag and unescapeMeasurement: nothing to do without a backslash */
  function Unescape(s: bytes, codes: seq<byte>): (r: bytes) {
    if BACKSLASH !in s then s else RestoreFrom(s, codes)
  }

  method UnescapeInPlace(s: bytes, codes: seq<byte>) returns (r: bytes)
    ensures r == Unescape(s, codes)
  {
    r := s;
    if BACKSLASH !in s { return; }
    for i := 0 to |codes|
      invariant RestoreFrom(r, codes[i..]) == RestoreFrom(s, codes)
    {
      assert codes[i..][1..] == codes[i + 1..];
      if codes[i] in r { r := RestoreByte(r, codes[i]); }
    }
  }

  // ---------- one pass instead of several ----------

  /** A backslash in front of every byte of `codes`, in a single pass. */
  function Escaped(s: bytes, codes: seq<byte>): (r: bytes) {
    if s == [] then [] else (if s[0] in codes then [BACKSLASH, s[0]] else [s[0]]) + Escaped(s[1..], codes)
  }

  lemma {:induction false} ReplaceAbsent(s: bytes, k: byte)
    requires k !in s
    ensures ReplaceByte(s, k) == s && RestoreByte(s, k) == s
  {
    if s != [] {
      ReplaceAbsent(s[1..], k);
      assert s == [s[0]] + s[1..];
    }
  }

  lemma {:induction false} ReplaceConcat(a: bytes, b: bytes, k: byte)
    ensures ReplaceByte(a + b, k) == ReplaceByte(a, k) + ReplaceByte(b, k)
  {
    if a == [] {
      assert a + b == b;
    } else {
      ReplaceConcat(a[1..], b, k);
      var head, x, y := if a[0] == k then [BACKSLASH, k] else [a[0]], ReplaceByte(a[1..], k), ReplaceByte(b, k);
      assert (a + b)[1..] == a[1..] + b && (a + b)[0] == a[0];
      assert ReplaceByte(a + b, k) == head + (x + y);
      assert head + (x + y) == (head + x) + y;
    }
  }

  lemma {:induction false} ReplaceAddsCode(s: bytes, codes: seq<byte>, k: byte)
    requires k !in codes && k != BACKSLASH
    ensures ReplaceByte(Escaped(s, codes), k) == Escaped(s, codes + [k])
  {
    if s != [] {
      ReplaceAddsCode(s[1..], codes, k);
      var head := if s[0] in codes then [BACKSLASH, s[0]] else [s[0]];
      ReplaceConcat(head, Escaped(s[1..], codes), k);
      assert ReplaceByte([s[0]], k) == if s[0] == k then [BACKSLASH, k] else [s[0]];
      assert [BACKSLASH, s[0]][1..] == [s[0]];
      assert ReplaceByte([BACKSLASH, s[0]], k) == [BACKSLASH] + ReplaceByte([s[0]], k);
    }
  }

  lemma {:induction false} EscapedByNone(s: bytes)
    ensures Escaped(s, []) == s
  {
    if s != [] { EscapedByNone(s[1..]); }
  }

  predicate Distinct(codes: seq<byte>) {
    BACKSLASH !in codes && forall i, j :: 0 <= i < j < |codes| ==> codes[i] != codes[j]
  }

  lemma {:induction false} EscapeFromIsOnePass(s: bytes, done: seq<byte>, codes: seq<byte>)
    requires Distinct(done + codes)
    ensures EscapeFrom(Escaped(s, done), codes) == Escaped(s, done + codes)
    decreases |codes|
  {
    if codes == [] {
      assert done + codes == done;
    } else {
      var k, x := codes[0], Escaped(s, done);
      assert (done + codes)[|done|] == k;
      forall i | 0 <= i < |done| ensures done[i] != k {
        assert (done + codes)[i] == done[i];
      }
      assert k != BACKSLASH by { assert (done + codes)[|done|] in done + codes; }
      ReplaceAddsCode(s, done, k);
      if k !in x { ReplaceAbsent(x, k); }
      assert done + codes == (done + [k]) + codes[1..];
      EscapeFromIsOnePass(s, done + [k], codes[1..]);
    }
  }

  lemma EscapeIsOnePass(s: bytes, codes: seq<byte>)
    requires Distinct(codes)
    ensures EscapeFrom(s, codes) == Escaped(s, codes)
  {
    EscapedByNone(s);
    assert [] + codes == codes;
    EscapeFromIsOnePass(s, [], codes);
  }

  // ---------- unescaping undoes escaping ----------

  /** An escaped text never starts with one of its codes. */
  lemma EscapedStart(s: bytes, codes: seq<byte>)
    requires BACKSLASH !in codes
    ensures var e := Escaped(s, codes); (e == [] <==> s == []) && (e != [] ==> e[0] !in codes)
  {
  }

  lemma RestoreMatch(tail: bytes, k: byte)
    ensures RestoreByte([BACKSLASH, k] + tail, k) == [k] + RestoreByte(tail, k)
  {
    assert ([BACKSLASH, k] + tail)[2..] == tail;
  }

  lemma RestoreNoMatch(b: byte, tail: bytes, k: byte)
    requires b != BACKSLASH || tail == [] || tail[0] != k
    ensures RestoreByte([b] + tail, k) == [b] + RestoreByte(tail, k)
  {
    assert ([b] + tail)[1..] == tail;
  }

  lemma {:induction false} RestoreRemovesCode(s: bytes, k: byte, rest: seq<byte>)
    requires k != BACKSLASH && BACKSLASH !in rest && k !in rest
    ensures RestoreByte(Escaped(s, [k] + rest), k) == Escaped(s, rest)
  {
    if s != [] {
      hide RestoreByte;
      var codes := [k] + rest;
      var tail := Escaped(s[1..], codes);
      RestoreRemovesCode(s[1..], k, rest);
      EscapedStart(s[1..], codes);
      assert s[0] in codes <==> s[0] == k || s[0] in rest;
      if s[0] == k {
        RestoreMatch(tail, k);
      } else if s[0] in rest {
        RestoreNoMatch(s[0], tail, k);
        RestoreNoMatch(BACKSLASH, [s[0]] + tail, k);
        assert [BACKSLASH, s[0]] + tail == [BACKSLASH] + ([s[0]] + tail);
      } else {
        assert k in codes;
        RestoreNoMatch(s[0], tail, k);
      }
    }
  }

  lemma {:induction false} RestoreFromUndoes(s: bytes, codes: seq<byte>)
    requires Distinct(codes)
    ensures RestoreFrom(Escaped(s, codes), codes) == s
    decreases |codes|
  {
    if codes == [] {
      EscapedByNone(s);
    } else {
      var k, rest, x := codes[0], codes[1..], Escaped(s, codes);
      assert codes == [k] + rest;
      assert k in codes && forall i :: 0 <= i < |rest| ==> rest[i] == codes[i + 1] && rest[i] in codes;
      RestoreRemovesCode(s, k, rest);
      if k !in x { ReplaceAbsent(x, k); }
      RestoreFromUndoes(s, rest);
    }
  }

  lemma {:induction false} RestoreFromWithoutBackslash(s: bytes, codes: seq<byte>)
    requires BACKSLASH !in s
    ensures RestoreFrom(s, codes) == s
    decreases |codes|
  {
    if codes != [] {
      RestoreWithoutBackslash(s, codes[0]);
      RestoreFromWithoutBackslash(s, codes[1..]);
    }
  }

  lemma {:induction false} RestoreWithoutBackslash(s: bytes, k: byte)
    requires BACKSLASH !in s
    ensures RestoreByte(s, k) == s
  {
    if |s| >= 2 {
      RestoreWithoutBackslash(s[1..], k);
      assert s[0] in s && s == [s[0]] + s[1..];
    }
  }

  /** For every byte string: unescaping what was escaped gives it back. */
  lemma UnescapeUndoesEscape(s: bytes, codes: seq<byte>)
    requires Distinct(codes)
    ensures Unescape(EscapeFrom(s, codes), codes) == s
  {
    EscapeIsOnePass(s, codes);
    RestoreFromUndoes(s, codes);
    var e := EscapeFrom(s, codes);
    if BACKSLASH !in e { RestoreFromWithoutBackslash(e, codes); }
  }
}
