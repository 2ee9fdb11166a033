/** scanKey of models/points.go: it scans the measurement and the tags of a line, sorts the
    tags through an index array when they are out of order, and rebuilds the key. */
module ScanKeys {
  import opened Bytes
  import opened LineScan
  import opened KeyGrammar
  import opened Sequences
  import opened TagOrder

  // ---------- scanTags ----------

  /** The parse of a line whose first tags have already been read. */
  function After(starts: seq<nat>, tags: seq<RawTag>, p: TagParse): (r: TagParse) {
    if p.BadTags? then p else GoodTags(p.pos, starts + p.starts, tags + p.tags)
  }

  lemma AfterOneMore(starts: seq<nat>, tags: seq<RawTag>, s: nat, t: RawTag, p: TagParse)
    ensures After(starts, tags, After([s], [t], p)) == After(starts + [s], tags + [t], p)
  {
    if p.GoodTags? {
      assert starts + ([s] + p.starts) == starts + [s] + p.starts;
      assert tags + ([t] + p.tags) == tags + [t] + p.tags;
    }
  }

  method Grow(indices: array<nat>, length: nat) returns (bigger: array<nat>)
    requires length >= indices.Length
    ensures fresh(bigger) && bigger.Length == length && bigger[..indices.Length] == indices[..]
  {
    bigger := new nat[length];
    forall k | 0 <= k < indices.Length { bigger[k] := indices[k]; }
    assert forall k :: 0 <= k < indices.Length ==> bigger[..indices.Length][k] == indices[..][k];
  }

  /** Stores v at position n, growing the array when it is full. */
  method Store(indices: array<nat>, n: nat, v: nat, doubling: bool) returns (r: array<nat>)
    requires 0 < indices.Length && n <= indices.Length
    modifies indices
    ensures r == indices || fresh(r)
    ensures n < r.Length && r[..n] == old(indices[..n]) && r[n] == v
  {
    r := indices;
    if n >= indices.Length {
      r := Grow(indices, if doubling then indices.Length * 2 else indices.Length + 1);
      assert r[..n] == r[..indices.Length][..n];
    }
    r[n] := v;
  }

  datatype ScanState = AtKey | AtValue | AtFields

  /** On success `indices` holds the start of every tag, and one past the end of the key
      behind them. */
  method ScanTags(buf: bytes, start: nat, given: array<nat>)
    returns (i: nat, commas: nat, indices: array<nat>, err: Error)
    requires start <= |buf| && 0 < given.Length
    modifies given
    ensures indices == given || fresh(indices)
    ensures var p := ParseTags(buf, start);
            if p.BadTags? then err == p.err && i == p.pos && err != NoError
            else err == NoError && i == p.pos && commas == |p.starts| && commas < indices.Length
                 && indices[..commas] == p.starts && indices[commas] == i + 1
  {
    hide NextStop, TagAt, TagKeyStep, TagValueStep;
    i, commas, indices, err := start, 0, given, NoError;
    var state := AtKey;
    ghost var s: nat, starts: seq<nat>, tags: seq<RawTag> := start, [], [];
    assert After([], [], ParseTags(buf, start)) == ParseTags(buf, start);
    while true
      invariant indices == given || fresh(indices)
      invariant 0 < indices.Length && commas <= indices.Length && i <= |buf| && s <= |buf| && err == NoError
      invariant state.AtKey? ==> s == i && commas == |starts| && indices[..commas] == starts
      invariant state.AtValue? ==> s < i && commas == |starts| + 1 && indices[..commas] == starts + [s]
      invariant state.AtValue? ==> TagKeyStep(buf, s) == (i, NoError)
      invariant !state.AtFields? ==> ParseTags(buf, start) == After(starts, tags, ParseTags(buf, s))
      invariant state.AtFields? ==> commas == |starts| && indices[..commas] == starts
      invariant state.AtFields? ==> ParseTags(buf, start) == GoodTags(i, starts, tags)
      decreases |buf| - i, if state.AtFields? then 0 else 1
    {
      match state
      case AtKey =>
        indices := Store(indices, commas, i, true);
        assert indices[..commas + 1] == starts + [i];
        commas := commas + 1;
        KeyStepMoves(buf, i);
        i, err := ScanTagsKey(buf, i);
        if err != NoError { return; }
        state := AtValue;
      case AtValue =>
        ValueStepMoves(buf, i);
        var v := ScanTagsValue(buf, i);
        i, err := v.pos, v.err;
        if v.state.Stuck? { return; }
        ghost var t := TagAt(buf, s);
        if v.state.ToTags? {
          AfterOneMore(starts, tags, s, t, ParseTags(buf, i));
          state := AtKey;
        } else {
          state := AtFields;
        }
        starts, tags, s := starts + [s], tags + [t], i;
      case AtFields =>
        indices := Store(indices, commas, i + 1, false);
        return;
    }
  }

  lemma KeyStepMoves(buf: bytes, i: nat)
    requires i <= |buf|
    ensures TagKeyStep(buf, i).1.NoError? ==> i < |buf| && i < TagKeyStep(buf, i).0 <= |buf|
  {
  }

  lemma ValueStepMoves(buf: bytes, i: nat)
    requires i <= |buf|
    ensures var v := TagValueStep(buf, i);
            (v.state.Stuck? <==> v.err != NoError) && (!v.state.Stuck? ==> i < v.pos <= |buf|)
  {
  }

  // ---------- insertionSort ----------

  /** The raw key of the tag that starts at s, as scanTo reads it. */
  function KeyFrom(buf: bytes, s: nat): (key: bytes)
    requires s <= |buf|
  {
    buf[s..NextStop(buf, s, One(EQUALS))]
  }

  predicate Offsets(buf: bytes, a: seq<nat>) {
    forall k :: 0 <= k < |a| ==> a[k] <= |buf|
  }

  predicate Below(buf: bytes, s: nat, t: nat)
    requires s <= |buf| && t <= |buf|
  {
    Less(KeyFrom(buf, s), KeyFrom(buf, t))
  }

  predicate SortedOffsets(buf: bytes, a: seq<nat>)
    requires Offsets(buf, a)
  {
    forall i, j :: 0 <= i < j < |a| ==> !Below(buf, a[j], a[i])
  }

  method LessAt(buf: bytes, indices: array<nat>, i: nat, j: nat) returns (less: bool)
    requires i < indices.Length && j < indices.Length && indices[i] <= |buf| && indices[j] <= |buf|
    ensures less == Below(buf, indices[i], indices[j])
  {
    var _, a := ScanTo(buf, indices[i], EQUALS);
    var _, b := ScanTo(buf, indices[j], EQUALS);
    less := Less(a, b);
  }

  /** Sorted but for the element at j, which is below everything that follows it. */
  predicate SortedBut(buf: bytes, a: seq<nat>, j: nat)
    requires Offsets(buf, a) && j < |a|
  {
    && (forall p, q :: 0 <= p < q < |a| && p != j && q != j ==> !Below(buf, a[q], a[p]))
    && (forall q :: j < q < |a| ==> !Below(buf, a[q], a[j]))
  }

  lemma SwapKeepsSortedBut(buf: bytes, a: seq<nat>, j: nat)
    requires Offsets(buf, a) && 0 < j < |a| && SortedBut(buf, a, j) && Below(buf, a[j], a[j - 1])
    ensures var b := a[j := a[j - 1]][j - 1 := a[j]]; Offsets(buf, b) && SortedBut(buf, b, j - 1)
    ensures multiset(a[j := a[j - 1]][j - 1 := a[j]]) == multiset(a)
  {
    hide Less, KeyFrom;
    var b := a[j := a[j - 1]][j - 1 := a[j]];
    BelowAsymmetric(buf, a[j], a[j - 1]);
    forall p, q | 0 <= p < q < |b| && p != j - 1 && q != j - 1 ensures !Below(buf, b[q], b[p]) {
      var p', q' := if p == j then j - 1 else p, if q == j then j - 1 else q;
      assert b[p] == a[p'] && b[q] == a[q'] && p' < q';
    }
  }

  lemma BelowAsymmetric(buf: bytes, s: nat, t: nat)
    requires s <= |buf| && t <= |buf| && Below(buf, s, t)
    ensures !Below(buf, t, s)
  {
    hide Less;
    if Below(buf, t, s) {
      LessTransitive(KeyFrom(buf, s), KeyFrom(buf, t), KeyFrom(buf, s));
      LessIrreflexive(KeyFrom(buf, s));
    }
  }

  lemma SortedButIsSorted(buf: bytes, a: seq<nat>, j: nat)
    requires Offsets(buf, a) && j < |a| && SortedBut(buf, a, j) && (j == 0 || !Below(buf, a[j], a[j - 1]))
    ensures SortedOffsets(buf, a)
  {
    hide Less, KeyFrom;
    forall p | 0 <= p < j ensures !Below(buf, a[j], a[p]) {
      if p < j - 1 { AtMostTransitive(KeyFrom(buf, a[p]), KeyFrom(buf, a[j - 1]), KeyFrom(buf, a[j])); }
    }
  }

  /** One round of the inner loop of insertionSort: `a` is the part of the array up to and
      including the element being inserted, `rest` what follows it. */
  method SwapIfBelow(buf: bytes, indices: array<nat>, j: nat, ghost a: seq<nat>, ghost rest: seq<nat>)
    returns (swapped: bool, ghost a': seq<nat>)
    requires indices[..] == a + rest && 0 < j < |a| && Offsets(buf, a) && SortedBut(buf, a, j)
    modifies indices
    ensures |a'| == |a| && multiset(a') == multiset(a) && Offsets(buf, a') && indices[..] == a' + rest
    ensures swapped ==> SortedBut(buf, a', j - 1)
    ensures !swapped ==> SortedOffsets(buf, a')
  {
    hide SortedBut, SortedOffsets;
    assert indices[j] == a[j] && indices[j - 1] == a[j - 1];
    swapped := LessAt(buf, indices, j, j - 1);
    a' := a;
    if swapped {
      SwapKeepsSortedBut(buf, a, j);
      indices[j], indices[j - 1] := indices[j - 1], indices[j];
      a' := a[j := a[j - 1]][j - 1 := a[j]];
    } else {
      SortedButIsSorted(buf, a, j);
    }
  }

  /** The inner loop of insertionSort. */
  method SinkInto(buf: bytes, indices: array<nat>, i: nat, ghost a: seq<nat>, ghost rest: seq<nat>)
    returns (ghost a': seq<nat>)
    requires indices[..] == a + rest && |a| == i + 1 && Offsets(buf, a) && SortedBut(buf, a, i)
    modifies indices
    ensures |a'| == |a| && multiset(a') == multiset(a) && indices[..] == a' + rest
    ensures Offsets(buf, a') && SortedOffsets(buf, a')
  {
    hide SortedBut, SortedOffsets, Below;
    var j := i;
    a' := a;
    while j > 0
      invariant 0 <= j <= i && |a'| == |a| && indices[..] == a' + rest
      invariant Offsets(buf, a') && SortedBut(buf, a', j) && multiset(a') == multiset(a)
    {
      var swapped;
      swapped, a' := SwapIfBelow(buf, indices, j, a', rest);
      if !swapped { return; }
      j := j - 1;
    }
    SortedButIsSorted(buf, a', 0);
  }

  lemma LastMayBeOut(buf: bytes, a: seq<nat>, s: nat)
    ensures Offsets(buf, a) && s <= |buf| && SortedOffsets(buf, a) ==>
              Offsets(buf, a + [s]) && SortedBut(buf, a + [s], |a|)
  {
    hide Below;
  }

  lemma SplitAround<T>(all: seq<T>, i: nat, a: seq<T>)
    requires i < |all|
    ensures all[..i + 1] == all[..i] + [all[i]]
    ensures a + all[i..] == (a + [all[i]]) + all[i + 1..]
  {
    assert all[i..] == [all[i]] + all[i + 1..];
  }

  method InsertionSort(buf: bytes, indices: array<nat>, r: nat)
    requires r <= indices.Length && Offsets(buf, indices[..r])
    modifies indices
    ensures Offsets(buf, indices[..r]) && SortedOffsets(buf, indices[..r])
    ensures multiset(indices[..r]) == multiset(old(indices[..r]))
    ensures indices[r..] == old(indices[r..])
  {
    hide Below, SortedBut;
    if r == 0 { return; }
    ghost var all := indices[..];
    ghost var a := all[..1];
    assert all == a + all[1..] && all[..r] == indices[..r];
    for i := 1 to r
      invariant |a| == i && indices[..] == a + all[i..]
      invariant Offsets(buf, a) && SortedOffsets(buf, a) && multiset(a) == multiset(all[..i])
    {
      ghost var s := all[i];
      assert s == all[..r][i];
      SplitAround(all, i, a);
      LastMayBeOut(buf, a, s);
      a := SinkInto(buf, indices, i, a + [s], all[i + 1..]);
    }
    assert indices[..r] == a && indices[r..] == all[r..];
  }

  // ---------- reading tags back through their offsets ----------

  lemma PairIsClean(t: RawTag)
    requires WellTag(t)
    ensures var s := PairText(t); Clean(s, SpaceOr(COMMA)) && s[|s| - 1] != BACKSLASH
    ensures PairText(t)[0] != COMMA && PairText(t)[0] != SPACE && PairText(t)[0] != EQUALS
  {
    var s, n := PairText(t), |t.key|;
    forall k | 1 <= k < |s| ensures !StopAt(s, k, SpaceOr(COMMA)) {
      if k < n {
        assert !StopAt(t.key, k, TagEnd) && s[k] == t.key[k] && s[k - 1] == t.key[k - 1];
      } else if k > n + 1 {
        assert !StopAt(t.value, k - n - 1, TagEnd) && s[k] == t.value[k - n - 1] && s[k - 1] == t.value[k - n - 2];
      } else if k == n + 1 {
        assert s[k] == t.value[0];
      }
    }
    assert s[|s| - 1] == t.value[|t.value| - 1];
  }

  /** scanTo and scanToSpaceOr read from s the key and the whole text of tag t. */
  predicate Reads(buf: bytes, s: nat, t: RawTag) {
    && s < |buf| && KeyFrom(buf, s) == t.key
    && buf[s] != COMMA && buf[s] != SPACE
    && NextStop(buf, s + 1, SpaceOr(COMMA)) < |buf| && buf[s..NextStop(buf, s + 1, SpaceOr(COMMA))] == PairText(t)
  }

  lemma TagReads(buf: bytes, s: nat, t: RawTag)
    requires WellTag(t) && At(buf, s, PairText(t)) && s + |PairText(t)| < |buf|
    requires buf[s + |PairText(t)|] == COMMA || buf[s + |PairText(t)|] == SPACE
    ensures Reads(buf, s, t) && NextStop(buf, s, One(EQUALS)) == s + |t.key|
  {
    hide At;
    TagParts(buf, s, t);
    PairIsClean(t);
    assert Clean(t.key, One(EQUALS)) by {
      forall k | 1 <= k < |t.key| ensures !StopAt(t.key, k, One(EQUALS)) { assert !StopAt(t.key, k, TagEnd); }
    }
    hide Clean, StopAt;
    TokenIsScanned(buf, s, t.key, One(EQUALS));
    TokenIsScanned(buf, s, PairText(t), SpaceOr(COMMA));
    FromNext(buf, s, One(EQUALS));
  }

  lemma FromNext(buf: bytes, i: nat, stops: Stops)
    requires i < |buf| && !IsStop(buf[i], stops)
    ensures NextStop(buf, i, stops) == NextStop(buf, i + 1, stops)
  {
  }

  /** The offsets of a laid-out tag list, in any order, with the tags they stand for. */
  ghost predicate Points(buf: bytes, offsets: seq<nat>, tags: seq<RawTag>) {
    |offsets| == |tags| && forall k :: 0 <= k < |tags| ==> WellTag(tags[k]) && Reads(buf, offsets[k], tags[k])
  }

  lemma LaidPoints(buf: bytes, i: nat, pos: nat, tags: seq<RawTag>)
    requires Laid(buf, i, pos, tags)
    ensures Points(buf, StartsFrom(i, tags), tags)
  {
    hide Reads, At, PairText, WellTag;
    forall k | 0 <= k < |tags| ensures Reads(buf, StartsFrom(i, tags)[k], tags[k]) {
      TagInPlace(buf, i, pos, tags, k);
      TagReads(buf, StartsFrom(i, tags)[k], tags[k]);
    }
  }

  /** A rearrangement that starts with a[k] continues with a rearrangement of the rest. */
  lemma TailWithout(a: seq<nat>, b: seq<nat>) returns (k: nat)
    requires multiset(a) == multiset(b) && b != []
    ensures k < |a| && a[k] == b[0] && multiset(Without(a, k)) == multiset(b[1..])
  {
    assert b[0] in multiset(b) && b[0] in multiset(a);
    k :| 0 <= k < |a| && a[k] == b[0];
    WithoutAt(a, k);
    WithoutFirst(b);
  }

  lemma PointsWithout(buf: bytes, offsets: seq<nat>, tags: seq<RawTag>, k: nat)
    requires Points(buf, offsets, tags) && k < |tags|
    ensures Points(buf, Without(offsets, k), Without(tags, k))
  {
    hide Reads, WellTag;
    forall x | 0 <= x < |tags| - 1
      ensures WellTag(Without(tags, k)[x]) && Reads(buf, Without(offsets, k)[x], Without(tags, k)[x])
    {
      var y := if x < k then x else x + 1;
      assert Without(tags, k)[x] == tags[y] && Without(offsets, k)[x] == offsets[y];
    }
  }

  /** Rearranging the offsets rearranges the tags they point to. */
  lemma {:induction false} PermutedPoints(buf: bytes, a: seq<nat>, tags: seq<RawTag>, b: seq<nat>)
    returns (tags': seq<RawTag>)
    requires Points(buf, a, tags) && multiset(a) == multiset(b)
    ensures Points(buf, b, tags') && SameTags(tags, tags')
    decreases |a|
  {
    hide Reads, WellTag, Without;
    if b == [] {
      assert |multiset(a)| == 0;
      tags' := [];
    } else {
      var k := TailWithout(a, b);
      WithoutAt(a, k);
      WithoutAt(tags, k);
      PointsWithout(buf, a, tags, k);
      var rest := PermutedPoints(buf, Without(a, k), Without(tags, k), b[1..]);
      tags' := [tags[k]] + rest;
      PointsCons(buf, b, tags[k], rest);
    }
  }

  lemma PointsCons(buf: bytes, b: seq<nat>, t: RawTag, rest: seq<RawTag>)
    requires b != [] && WellTag(t) && Reads(buf, b[0], t) && Points(buf, b[1..], rest)
    ensures Points(buf, b, [t] + rest) && multiset([t] + rest) == multiset{t} + multiset(rest)
  {
    hide Reads, WellTag;
    forall x | 1 <= x < |b| ensures WellTag(([t] + rest)[x]) && Reads(buf, b[x], ([t] + rest)[x]) {
      assert b[x] == b[1..][x - 1] && ([t] + rest)[x] == rest[x - 1];
    }
  }

  lemma SortedPoints(buf: bytes, offsets: seq<nat>, tags: seq<RawTag>)
    requires Points(buf, offsets, tags) && Offsets(buf, offsets) && SortedOffsets(buf, offsets)
    ensures WeaklyAscending(tags)
  {
    hide NextStop, Less, PairText, WellTag, KeyFrom;
    forall i, j | 0 <= i < j < |tags| ensures !Less(tags[j].key, tags[i].key) {
      assert !Below(buf, offsets[j], offsets[i]);
    }
  }

  // ---------- the two passes over neighbours ----------

  datatype Order = InOrder | OutOfOrder | Duplicate

  /** The first pass: keys are read from the slice of the line that holds each tag. */
  method CheckOrder(buf: bytes, i: nat, pos: nat, indices: array<nat>, commas: nat, ghost tags: seq<RawTag>)
    returns (order: Order)
    requires 0 < i && Laid(buf, i, pos, tags) && buf[i - 1] == COMMA
    requires commas == |tags| < indices.Length && indices[..commas] == StartsFrom(i, tags) && indices[commas] == pos + 1
    ensures order.InOrder? ==> Ascending(tags)
    ensures order.Duplicate? ==> HasDuplicate(tags)
  {
    hide Laid, PairText, Less, Ascending, HasDuplicate;
    ghost var starts := StartsFrom(i, tags);
    for j := 0 to commas - 1
      invariant forall k :: 0 <= k < j ==> NextIsAbove(tags, k)
    {
      assert indices[j] == starts[j] && indices[j + 1] == starts[j + 1];
      assert j + 2 < commas ==> indices[j + 2] == starts[j + 2];
      SliceOfTag(buf, i, pos, tags, j);
      SliceOfTag(buf, i, pos, tags, j + 1);
      var _, left := ScanTo(buf[indices[j]..indices[j + 1] - 1], 0, EQUALS);
      var _, right := ScanTo(buf[indices[j + 1]..indices[j + 2] - 1], 0, EQUALS);
      assert left == tags[j].key && right == tags[j + 1].key;
      if Less(right, left) { return OutOfOrder; }
      if left == right {
        EqualNeighbours(tags, j);
        return Duplicate;
      }
      LessTotal(left, right);
    }
    NeighboursAscending(tags);
    return InOrder;
  }

  lemma EqualNeighbours(tags: seq<RawTag>, j: nat)
    requires j + 1 < |tags| && tags[j].key == tags[j + 1].key
    ensures HasDuplicate(tags)
  {
  }

  lemma SliceOfTag(buf: bytes, i: nat, pos: nat, tags: seq<RawTag>, j: nat)
    requires 0 < i && Laid(buf, i, pos, tags) && buf[i - 1] == COMMA && j < |tags|
    ensures var s := StartsFrom(i, tags)[j];
            var e := if j + 1 < |tags| then StartsFrom(i, tags)[j + 1] - 1 else pos;
            s <= e <= |buf| && |tags[j].key| <= e - s && NextStop(buf[s..e], 0, One(EQUALS)) == |tags[j].key|
            && buf[s..e][..|tags[j].key|] == tags[j].key
  {
    hide Laid, StartsFrom, Reads, At, NextStop, WellTag, PairText;
    var s, t := StartsFrom(i, tags)[j], tags[j];
    TagInPlace(buf, i, pos, tags, j);
    WellTagOfLaid(buf, i, pos, tags, j);
    KeyInSlice(buf, s, t);
  }

  lemma KeyInSlice(buf: bytes, s: nat, t: RawTag)
    requires 0 < s && s + |PairText(t)| < |buf| && buf[s - 1] != BACKSLASH && WellTag(t) && At(buf, s, PairText(t))
    requires buf[s + |PairText(t)|] == COMMA || buf[s + |PairText(t)|] == SPACE
    ensures var slice := buf[s..s + |PairText(t)|];
            NextStop(slice, 0, One(EQUALS)) == |t.key| <= |slice| && slice[..|t.key|] == t.key
  {
    hide At, NextStop, WellTag;
    TagReads(buf, s, t);
    NextStopInSlice(buf, s, s + |PairText(t)|, One(EQUALS));
    assert buf[s..s + |PairText(t)|][..|t.key|] == buf[s..s + |t.key|];
  }

  lemma WellTagOfLaid(buf: bytes, i: nat, pos: nat, tags: seq<RawTag>, j: nat)
    requires Laid(buf, i, pos, tags) && j < |tags|
    ensures WellTag(tags[j])
  {
  }

  /** The second pass, over the sorted offsets. */
  method FindDuplicate(buf: bytes, indices: seq<nat>, ghost tags: seq<RawTag>) returns (dup: bool)
    requires Points(buf, indices, tags) && WeaklyAscending(tags)
    ensures dup ==> HasDuplicate(tags)
    ensures !dup ==> Ascending(tags)
  {
    hide Reads, WellTag, Less, Ascending, HasDuplicate, WeaklyAscending;
    var j := 0;
    while j < |indices| - 1
      invariant 0 <= j && if indices == [] then j == 0 else j < |indices|
      invariant forall k :: 0 <= k < j ==> !NextIsEqual(tags, k)
    {
      var left := KeyOfSuffix(buf, indices[j], tags[j]);
      var right := KeyOfSuffix(buf, indices[j + 1], tags[j + 1]);
      if left == right {
        EqualNeighbours(tags, j);
        return true;
      }
      j := j + 1;
    }
    SortedWithoutEqualNeighbours(tags);
    return false;
  }

  /** scanTo(buf[s:], 0, '='): the byte before s is out of sight, but a tag does not start
      with an equals sign. */
  method KeyOfSuffix(buf: bytes, s: nat, ghost t: RawTag) returns (key: bytes)
    requires WellTag(t) && Reads(buf, s, t)
    ensures key == t.key
  {
    var suffix := buf[s..];
    var _, k := ScanTo(suffix, 0, EQUALS);
    PairIsClean(t);
    assert buf[s] == PairText(t)[0];
    forall x | 1 <= x < |suffix| ensures StopAt(suffix, x, One(EQUALS)) <==> StopAt(buf, s + x, One(EQUALS)) { }
    NextStopUnique(suffix, 0, One(EQUALS), NextStop(buf, s, One(EQUALS)) - s);
    key := k;
  }

  // ---------- rebuilding the key ----------

  method TagFrom(buf: bytes, s: nat, ghost t: RawTag) returns (text: bytes)
    requires Reads(buf, s, t)
    ensures text == PairText(t)
  {
    var _, v := ScanToSpaceOr(buf, s, COMMA);
    text := v;
  }

  method Rebuild(buf: bytes, measurement: bytes, indices: seq<nat>, length: nat, ghost tags: seq<RawTag>)
    returns (b: array<byte>)
    requires Points(buf, indices, tags) && length == |measurement| + TextLength(tags)
    ensures fresh(b) && b[..] == KeyText(measurement, tags)
  {
    hide PairText, WellTag, Reads, TagText, TextLength;
    b := new byte[length];
    EmptyText();
    var pos := CopyInto(b, 0, measurement);
    for j := 0 to |indices|
      invariant fresh(b) && b.Length == length
      invariant pos == |measurement| + TextLength(tags[..j]) <= length
      invariant b[..pos] == measurement + TagText(tags[..j])
    {
      TextOfPrefix(tags, j);
      pos := CopyInto(b, pos, [COMMA]);
      var v := TagFrom(buf, indices[j], tags[j]);
      pos := CopyInto(b, pos, v);
    }
    assert tags[..|tags|] == tags;
    assert b[..] == b[..pos];
  }

  lemma EmptyText()
    ensures TextLength([]) == 0 && TagText([]) == []
  {
  }

  lemma TextOfPrefix(tags: seq<RawTag>, j: nat)
    requires j < |tags|
    ensures TextLength(tags[..j + 1]) == TextLength(tags[..j]) + 1 + |PairText(tags[j])| <= TextLength(tags)
    ensures TagText(tags[..j + 1]) == TagText(tags[..j]) + [COMMA] + PairText(tags[j])
  {
    hide PairText, TagBody;
    assert tags[..j + 1] == tags[..j] + [tags[j]];
    assert tags == tags[..j + 1] + tags[j + 1..];
    TagTextOfOneMore(tags[..j], tags[j]);
    TextLengthOfConcat(tags[..j], [tags[j]]);
    TextLengthOfConcat(tags[..j + 1], tags[j + 1..]);
  }

  // ---------- scanKey ----------

  /** The key is the name followed by exactly the given tags, by strictly ascending key. */
  ghost predicate IsCanonical(key: bytes, name: bytes, tags: seq<RawTag>) {
    exists sorted :: SameTags(tags, sorted) && Ascending(sorted) && key == KeyText(name, sorted)
  }

  /** Everything scanKey promises about its result. */
  ghost predicate Scanned(buf: bytes, i: nat, pos: nat, key: bytes, err: Error)
    requires i <= |buf|
  {
    var start := AfterWhitespace(buf, i);
    match ParseKey(buf, start)
    case BadKey(e, at) => err == e && pos == at
    case GoodKey(name, end, starts, tags) =>
      && pos == end
      && (if HasDuplicate(tags) then err == DuplicateTags else err == NoError && IsCanonical(key, name, tags))
  }

  method SortTags(buf: bytes, indices: array<nat>, commas: nat, measurement: bytes, length: nat,
                  ghost tags: seq<RawTag>)
    returns (key: bytes, err: Error)
    requires commas <= indices.Length && Points(buf, indices[..commas], tags)
    requires length == |measurement| + TextLength(tags)
    modifies indices
    ensures if HasDuplicate(tags) then err == DuplicateTags else err == NoError && IsCanonical(key, measurement, tags)
  {
    hide Reads, WellTag, KeyText, TextLength, Ascending, WeaklyAscending, HasDuplicate;
    ghost var before := indices[..commas];
    PointsAreOffsets(buf, before, tags);
    InsertionSort(buf, indices, commas);
    var after := indices[..commas];
    ghost var sorted := PermutedPoints(buf, before, tags, after);
    SortedPoints(buf, after, sorted);
    TextLengthOfSameTags(tags, sorted);
    var b := Rebuild(buf, measurement, after, length, sorted);
    key := b[..];
    var dup := FindDuplicate(buf, after, sorted);
    if dup {
      DuplicatesOfSameTags(sorted, tags);
      return key, DuplicateTags;
    }
    NoDuplicatesWhenSorted(tags, sorted);
    return key, NoError;
  }

  lemma PointsAreOffsets(buf: bytes, offsets: seq<nat>, tags: seq<RawTag>)
    ensures Points(buf, offsets, tags) ==> Offsets(buf, offsets)
  {
  }

  lemma NoDuplicatesWhenSorted(tags: seq<RawTag>, sorted: seq<RawTag>)
    requires SameTags(tags, sorted) && Ascending(sorted)
    ensures !HasDuplicate(tags)
  {
    hide Ascending, HasDuplicate;
    AscendingHasNoDuplicate(sorted);
    if HasDuplicate(tags) { DuplicatesOfSameTags(tags, sorted); }
  }

  lemma StepErrors(buf: bytes, start: nat)
    requires start <= |buf|
    ensures MeasurementStep(buf, start).err == NoError <==> !MeasurementStep(buf, start).state.Stuck?
  {
  }

  lemma NoTagsAreCanonical(name: bytes)
    ensures IsCanonical(name, name, []) && !HasDuplicate([])
  {
    assert SameTags([], []) && Ascending([]) && name == KeyText(name, []);
  }

  lemma AlreadyCanonical(buf: bytes, start: nat, pos: nat, name: bytes, tags: seq<RawTag>)
    requires IsKeySection(buf, start, pos, name, tags) && Ascending(tags)
    ensures start <= pos <= |buf| && IsCanonical(buf[start..pos], name, tags) && !HasDuplicate(tags)
  {
    AscendingHasNoDuplicate(tags);
    assert SameTags(tags, tags);
  }

  lemma SectionLength(buf: bytes, start: nat, pos: nat, name: bytes, tags: seq<RawTag>)
    requires IsKeySection(buf, start, pos, name, tags)
    ensures pos == start + |name| + TextLength(tags)
  {
    TextLengthIsLength(tags);
  }

  method ScanKey(buf: bytes, from: nat) returns (pos: nat, key: bytes, err: Error)
    requires from <= |buf|
    ensures Scanned(buf, from, pos, key, err)
  {
    hide MeasurementStep, ParseTags, Laid, HasDuplicate, Ascending, IsKeySection, KeyText, WellName, StartsFrom,
      IsCanonical, Points, TextLength, TagText, PairText, WellTag, SameTags;
    var start := SkipWhitespace(buf, from);
    var indices := new nat[100];
    var m := ScanMeasurement(buf, start);
    StepErrors(buf, start);
    if m.err != NoError { return m.pos, buf[start..m.pos], m.err; }
    if m.state.ToFields? {
      pos, key, err := m.pos, buf[start..m.pos], NoError;
      NoTagsAreCanonical(key);
      return;
    }
    var commas;
    pos, commas, indices, err := ScanTags(buf, m.pos, indices);
    if err != NoError { return pos, buf[start..pos], err; }
    ghost var p := ParseKey(buf, start);
    KeyParseIsSound(buf, start);
    var order := CheckOrder(buf, m.pos, pos, indices, commas, p.tags);
    match order
    case Duplicate => return pos, buf[start..pos], DuplicateTags;
    case InOrder =>
      key := buf[start..pos];
      AlreadyCanonical(buf, start, pos, p.name, p.tags);
    case OutOfOrder =>
      LaidPoints(buf, m.pos, pos, p.tags);
      SectionLength(buf, start, pos, p.name, p.tags);
      key, err := SortTags(buf, indices, commas, buf[start..indices[0] - 1], pos - start, p.tags);
  }

  // ---------- what the scan is for ----------

  ghost predicate HasKeySection(buf: bytes, start: nat) {
    exists pos, name, tags :: IsKeySection(buf, start, pos, name, tags)
  }

  ghost predicate KeySectionEndsAt(buf: bytes, start: nat, pos: nat) {
    exists name, tags :: IsKeySection(buf, start, pos, name, tags)
  }

  /** A line is accepted, up to duplicates, exactly when it begins with a key section, and that
      section ends where the scan ends. */
  lemma AcceptedIffGrammar(buf: bytes, i: nat, pos: nat, key: bytes, err: Error)
    requires i <= |buf| && Scanned(buf, i, pos, key, err)
    ensures err == NoError || err == DuplicateTags <==> HasKeySection(buf, AfterWhitespace(buf, i))
    ensures err == NoError || err == DuplicateTags ==> KeySectionEndsAt(buf, AfterWhitespace(buf, i), pos)
  {
    hide IsKeySection, HasDuplicate, IsCanonical;
    var start := AfterWhitespace(buf, i);
    ErrorsOfParse(buf, start);
    if ParseKey(buf, start).GoodKey? {
      KeyParseIsSound(buf, start);
    } else if HasKeySection(buf, start) {
      var end, name, tags :| IsKeySection(buf, start, end, name, tags);
      KeyParseIsComplete(buf, start, end, name, tags);
    }
  }

  lemma {:induction false} ErrorsOfTags(buf: bytes, i: nat)
    requires i <= |buf| && ParseTags(buf, i).BadTags?
    ensures ParseTags(buf, i).err != NoError && ParseTags(buf, i).err != DuplicateTags
    decreases |buf| - i
  {
    hide NextStop;
    var k := TagKeyStep(buf, i);
    if k.1 == NoError && TagValueStep(buf, k.0).state.ToTags? { ErrorsOfTags(buf, TagValueStep(buf, k.0).pos); }
  }

  lemma ErrorsOfParse(buf: bytes, start: nat)
    requires start <= |buf|
    ensures var p := ParseKey(buf, start); p.BadKey? ==> p.err != NoError && p.err != DuplicateTags
  {
    hide ParseTags, NextStop;
    var m := MeasurementStep(buf, start);
    if m.state.ToTags? && ParseTags(buf, m.pos).BadTags? { ErrorsOfTags(buf, m.pos); }
  }

  /** Two lines with the same measurement and the same tags in any order are both refused as
      duplicates or get byte-identical keys. */
  lemma PermutedLinesSameKey(buf: bytes, i: nat, pos: nat, key: bytes, err: Error, tags: seq<RawTag>,
                             buf': bytes, i': nat, pos': nat, key': bytes, err': Error, tags': seq<RawTag>, name: bytes)
    requires i <= |buf| && Scanned(buf, i, pos, key, err)
    requires i' <= |buf'| && Scanned(buf', i', pos', key', err')
    requires IsKeySection(buf, AfterWhitespace(buf, i), pos, name, tags)
    requires IsKeySection(buf', AfterWhitespace(buf', i'), pos', name, tags')
    requires SameTags(tags, tags')
    ensures err == err' && (err == NoError || err == DuplicateTags) && (err == NoError ==> key == key')
    ensures err == DuplicateTags <==> HasDuplicate(tags)
  {
    hide HasDuplicate, Ascending, KeyText, IsKeySection, ParseKey, AfterWhitespace;
    KeyParseIsComplete(buf, AfterWhitespace(buf, i), pos, name, tags);
    KeyParseIsComplete(buf', AfterWhitespace(buf', i'), pos', name, tags');
    if HasDuplicate(tags) { DuplicatesOfSameTags(tags, tags'); }
    if HasDuplicate(tags') { DuplicatesOfSameTags(tags', tags); }
    if err == NoError && err' == NoError {
      var a :| SameTags(tags, a) && Ascending(a) && key == KeyText(name, a);
      var b :| SameTags(tags', b) && Ascending(b) && key' == KeyText(name, b);
      AscendingIsUnique(a, b);
    }
  }

  /** A canonical key scans to itself, whatever fields follow it. */
  lemma CanonicalKeyIsFixed(buf: bytes, i: nat, pos: nat, key: bytes, rest: bytes, pos': nat, key': bytes, err': Error)
    requires i <= |buf| && Scanned(buf, i, pos, key, NoError)
    requires Scanned(key + [SPACE] + rest, 0, pos', key', err')
    ensures err' == NoError && key' == key && pos' == |key|
  {
    hide HasDuplicate, Ascending, KeyText, IsKeySection, ParseKey;
    var start := AfterWhitespace(buf, i);
    ErrorsOfParse(buf, start);
    KeyParseIsSound(buf, start);
    var p := ParseKey(buf, start);
    var a :| SameTags(p.tags, a) && Ascending(a) && key == KeyText(p.name, a);
    SameMembers(p.tags, a);
    var line := key + [SPACE] + rest;
    CanonicalLine(buf, start, p.pos, p.name, p.tags, a, rest);
    KeyParseIsComplete(line, 0, |key|, p.name, a);
    AscendingHasNoDuplicate(a);
    var b :| SameTags(a, b) && Ascending(b) && key' == KeyText(p.name, b);
    AscendingIsUnique(a, b);
  }

  lemma CanonicalLine(buf: bytes, start: nat, pos: nat, name: bytes, tags: seq<RawTag>,
                      sorted: seq<RawTag>, rest: bytes)
    requires IsKeySection(buf, start, pos, name, tags) && SameTags(tags, sorted)
    requires start < |buf| ==> buf[start] != SPACE && buf[start] != 9 && buf[start] != 0
    ensures var line := KeyText(name, sorted) + [SPACE] + rest;
            AfterWhitespace(line, 0) == 0 && IsKeySection(line, 0, |KeyText(name, sorted)|, name, sorted)
  {
    hide WellTag, TagText;
    SameMembers(tags, sorted);
    forall k | 0 <= k < |sorted| ensures WellTag(sorted[k]) {
      assert sorted[k] in tags;
    }
    var key := KeyText(name, sorted);
    var line := key + [SPACE] + rest;
    assert line[..|key|] == key;
    assert name[0] == KeyText(name, tags)[0] == buf[start..start + |KeyText(name, tags)|][0] == buf[start];
    assert line[0] == key[0] == name[0];
  }
}
