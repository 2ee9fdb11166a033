/** Tags ordered by raw key: duplicates, and the one ascending arrangement of a tag set. */
module TagOrder {
  import opened Bytes
  import opened KeyGrammar
  import opened Sequences

  predicate Ascending(tags: seq<RawTag>) {
    forall i, j :: 0 <= i < j < |tags| ==> Less(tags[i].key, tags[j].key)
  }

  predicate WeaklyAscending(tags: seq<RawTag>) {
    forall i, j :: 0 <= i < j < |tags| ==> !Less(tags[j].key, tags[i].key)
  }

  predicate HasDuplicate(tags: seq<RawTag>) {
    exists i, j :: 0 <= i < j < |tags| && tags[i].key == tags[j].key
  }

  predicate SameTags(a: seq<RawTag>, b: seq<RawTag>) {
    multiset(a) == multiset(b)
  }

  lemma AscendingHasNoDuplicate(tags: seq<RawTag>)
    requires Ascending(tags)
    ensures !HasDuplicate(tags)
  {
    forall i, j | 0 <= i < j < |tags| ensures tags[i].key != tags[j].key {
      LessIrreflexive(tags[i].key);
    }
  }

  /** Neighbours decide: if each key is below the next, all are in order. */
  lemma {:induction false} NeighboursAscending(tags: seq<RawTag>)
    requires forall j :: 0 <= j < |tags| - 1 ==> NextIsAbove(tags, j)
    ensures Ascending(tags)
  {
    if |tags| > 1 {
      var front := tags[..|tags| - 1];
      forall j | 0 <= j < |front| - 1 ensures NextIsAbove(front, j) { assert NextIsAbove(tags, j); }
      NeighboursAscending(front);
      var last, prev := |tags| - 1, |tags| - 2;
      assert NextIsAbove(tags, prev);
      forall i | 0 <= i < last ensures Less(tags[i].key, tags[last].key) {
        if i < prev { LessTransitive(front[i].key, tags[prev].key, tags[last].key); }
      }
      forall i, j | 0 <= i < j < |tags| ensures Less(tags[i].key, tags[j].key) {
        if j < last { assert Less(front[i].key, front[j].key); }
      }
    }
  }

  predicate NextIsAbove(tags: seq<RawTag>, j: nat)
    requires j + 1 < |tags|
  {
    Less(tags[j].key, tags[j + 1].key)
  }

  predicate NextIsEqual(tags: seq<RawTag>, j: nat)
    requires j + 1 < |tags|
  {
    tags[j].key == tags[j + 1].key
  }

  lemma SortedWithoutEqualNeighbours(tags: seq<RawTag>)
    requires WeaklyAscending(tags)
    requires forall j :: 0 <= j < |tags| - 1 ==> !NextIsEqual(tags, j)
    ensures Ascending(tags)
  {
    forall j | 0 <= j < |tags| - 1 ensures NextIsAbove(tags, j) {
      assert !NextIsEqual(tags, j);
      LessTotal(tags[j].key, tags[j + 1].key);
    }
    NeighboursAscending(tags);
  }

  lemma SameMembers(a: seq<RawTag>, b: seq<RawTag>)
    requires SameTags(a, b)
    ensures |a| == |b| && forall t :: t in a <==> t in b
  {
    assert |a| == |multiset(a)| == |multiset(b)| == |b|;
    forall t ensures t in a <==> t in b {
      assert t in a <==> t in multiset(a);
      assert t in b <==> t in multiset(b);
    }
  }

  lemma SameFirst(a: seq<RawTag>, b: seq<RawTag>)
    requires Ascending(a) && Ascending(b) && SameTags(a, b) && a != []
    ensures b != [] && a[0] == b[0]
  {
    hide Less;
    SameMembers(a, b);
    assert a[0] in b && b[0] in a;
    var i :| 0 <= i < |b| && b[i] == a[0];
    var j :| 0 <= j < |a| && a[j] == b[0];
    if 0 < i && 0 < j {
      LessTransitive(b[0].key, a[0].key, b[0].key);
      LessIrreflexive(b[0].key);
    }
  }

  lemma AscendingRest(a: seq<RawTag>)
    ensures Ascending(a) && a != [] ==> Ascending(a[1..])
  {
    hide Less;
  }

  /** A tag set has at most one ascending arrangement. */
  lemma {:induction false} AscendingIsUnique(a: seq<RawTag>, b: seq<RawTag>)
    requires Ascending(a) && Ascending(b) && SameTags(a, b)
    ensures a == b
  {
    hide Ascending;
    SameLength(a, b);
    if a != [] {
      SameFirst(a, b);
      WithoutFirst(a);
      WithoutFirst(b);
      AscendingRest(a);
      AscendingRest(b);
      AscendingIsUnique(a[1..], b[1..]);
      assert a == [a[0]] + a[1..] && b == [b[0]] + b[1..];
    }
  }

  /** Rearranging tags neither makes nor removes duplicates. */
  lemma DuplicatesOfSameTags(a: seq<RawTag>, b: seq<RawTag>)
    requires SameTags(a, b) && HasDuplicate(a)
    ensures HasDuplicate(b)
  {
    var i, j :| 0 <= i < j < |a| && a[i].key == a[j].key;
    SameMembers(a, b);
    if a[i] == a[j] {
      TwiceInSequence(a, i, j);
      TwiceMeansTwoPlaces(b, a[i]);
    } else {
      assert a[i] in b && a[j] in b;
      var x :| 0 <= x < |b| && b[x] == a[i];
      var y :| 0 <= y < |b| && b[y] == a[j];
      assert x < y || y < x;
    }
  }

  lemma TwiceInSequence(s: seq<RawTag>, i: nat, j: nat)
    requires i < j < |s| && s[i] == s[j]
    ensures multiset(s)[s[i]] >= 2
  {
    assert s == s[..j] + s[j..];
    assert s[i] in s[..j] by { assert s[..j][i] == s[i]; }
    assert s[i] in s[j..] by { assert s[j..][0] == s[j]; }
    assert multiset(s) == multiset(s[..j]) + multiset(s[j..]);
  }

  lemma TwiceMeansTwoPlaces(s: seq<RawTag>, t: RawTag)
    requires multiset(s)[t] >= 2
    ensures HasDuplicate(s)
  {
    assert t in multiset(s);
    var i :| 0 <= i < |s| && s[i] == t;
    var rest := Without(s, i);
    WithoutAt(s, i);
    assert t in multiset(rest);
    var k :| 0 <= k < |rest| && rest[k] == t;
    if k < i {
      assert rest[k] == s[..i][k] == s[k];
    } else {
      assert rest[k] == s[i + 1..][k - i] == s[k + 1];
    }
  }

  // ---------- the text of a rearrangement ----------

  function TextLength(tags: seq<RawTag>): nat {
    if tags == [] then 0 else 1 + |PairText(tags[0])| + TextLength(tags[1..])
  }

  lemma {:induction false} TextLengthIsLength(tags: seq<RawTag>)
    ensures |TagText(tags)| == TextLength(tags)
  {
    if |tags| > 1 {
      TextLengthIsLength(tags[1..]);
    }
  }

  lemma {:induction false} TextLengthOfConcat(a: seq<RawTag>, b: seq<RawTag>)
    ensures TextLength(a + b) == TextLength(a) + TextLength(b)
  {
    if a == [] {
      assert a + b == b;
    } else {
      TextLengthOfConcat(a[1..], b);
      assert (a + b)[1..] == a[1..] + b;
    }
  }

  lemma TextLengthWithout(a: seq<RawTag>, k: nat)
    requires k < |a|
    ensures TextLength(a) == TextLength(Without(a, k)) + TextLength([a[k]])
    ensures multiset(Without(a, k)) == multiset(a) - multiset{a[k]}
  {
    hide TextLength;
    WithoutAt(a, k);
    TextLengthOfConcat(a[..k], [a[k]] + a[k + 1..]);
    TextLengthOfConcat([a[k]], a[k + 1..]);
    TextLengthOfConcat(a[..k], a[k + 1..]);
  }

  lemma {:induction false} TextLengthOfSameTags(a: seq<RawTag>, b: seq<RawTag>)
    requires SameTags(a, b)
    ensures TextLength(a) == TextLength(b)
    decreases |a|
  {
    hide TextLength;
    SameLength(a, b);
    if a == [] {
      assert b == [];
    } else {
      assert a[0] in multiset(b);
      var k :| 0 <= k < |b| && b[k] == a[0];
      TextLengthWithout(a, 0);
      TextLengthWithout(b, k);
      TextLengthOfSameTags(a[..0] + a[1..], b[..k] + b[k + 1..]);
    }
  }
}
