/** Byte strings, the special bytes of the line protocol, and the order of bytes.Compare. */
module Bytes {
  newtype byte = x: int | 0 <= x < 256
  type bytes = seq<byte>

  const COMMA: byte := 44
  const SPACE: byte := 32
  const EQUALS: byte := 61
  const BACKSLASH: byte := 92
  const QUOTE: byte := 34

  /** bytes.Compare(a, b) < 0 */
  predicate Less(a: bytes, b: bytes) {
    b != [] && (a == [] || a[0] < b[0] || (a[0] == b[0] && Less(a[1..], b[1..])))
  }

  lemma {:induction false} LessIrreflexive(a: bytes)
    ensures !Less(a, a)
  {
    if a != [] { LessIrreflexive(a[1..]); }
  }

  lemma {:induction false} LessTransitive(a: bytes, b: bytes, c: bytes)
    requires Less(a, b) && Less(b, c)
    ensures Less(a, c)
  {
    if a != [] && a[0] == b[0] == c[0] { LessTransitive(a[1..], b[1..], c[1..]); }
  }

  lemma {:induction false} LessTotal(a: bytes, b: bytes)
    ensures Less(a, b) || a == b || Less(b, a)
  {
    if a != [] && b != [] {
      LessTotal(a[1..], b[1..]);
      assert a == [a[0]] + a[1..] && b == [b[0]] + b[1..];
    }
  }

  /** Not-less is transitive as well. */
  lemma AtMostTransitive(a: bytes, b: bytes, c: bytes)
    requires !Less(b, a) && !Less(c, b)
    ensures !Less(c, a)
  {
    LessTotal(a, b);
    LessTotal(b, c);
    LessTotal(c, a);
    if Less(c, a) {
      if a == b { } else if b == c { } else { LessTransitive(a, b, c); LessTransitive(c, a, c); LessIrreflexive(c); }
    }
  }

  /** copy(b[at:], s) into a buffer with enough room; returns the position behind it. */
  method CopyInto(b: array<byte>, at: nat, s: bytes) returns (next: nat)
    requires at + |s| <= b.Length
    modifies b
    ensures next == at + |s| && b[..next] == old(b[..at]) + s
  {
    for k := 0 to |s|
      invariant b[..at + k] == old(b[..at]) + s[..k]
    {
      b[at + k] := s[k];
      assert s[..k + 1] == s[..k] + [s[k]];
    }
    assert s[..|s|] == s;
    next := at + |s|;
  }
}
