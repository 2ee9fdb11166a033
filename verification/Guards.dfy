/** Delete guards (tsdb/guard.go): the expression simplifier, and when the guard it
    builds covers every point the delete condition selects. */
module Guards {
  import opened Optional

  datatype Tag = Tag(key: string, value: string)

  datatype Point = Point(name: string, tags: seq<Tag>, time: int)

  // ---------- influxql expressions ----------

  datatype VarType = UnknownType | TagType | OtherType

  datatype Op = And | Or | Eq | Neq | OtherOp

  /** `Other` stands for every node kind that guard.go does not look into; its number only
      keeps distinct nodes apart. `NoExpr` is Go's nil expression. */
  datatype Expr =
    | NoExpr
    | Paren(inner: Expr)
    | BoolLit(val: bool)
    | Binary(op: Op, lhs: Expr, rhs: Expr)
    | VarRef(name: string, typ: VarType)
    | StringLit(str: string)
    | RegexLit(re: string)
    | Other(id: int)

  const NAME_KEY := "_name"

  // ---------- the compiled guard ----------

  /** `MatchAll` is the nil *exprGuard, `MatchNone` its zero value. The closure stored in
      tagGuard.op is one of two comparisons with `val`, chosen by `negated`. */
  datatype ExprGuard =
    | MatchAll
    | MatchNone
    | Both(left: ExprGuard, right: ExprGuard)
    | Either(left: ExprGuard, right: ExprGuard)
    | TagMatches(meas: bool, key: string, negated: bool, val: string)
    | TagExists(keys: set<string>)

  function NewExprGuard(e: Expr): (g: ExprGuard)
  {
    match e
    case Paren(inner) => NewExprGuard(inner)
    case BoolLit(b) => if b then MatchAll else MatchNone
    case Binary(And, l, r) =>
      var lhs, rhs := NewExprGuard(l), NewExprGuard(r);
      if lhs.MatchAll? then rhs
      else if rhs.MatchAll? then lhs
      else if lhs.MatchNone? || rhs.MatchNone? then MatchNone
      else Both(lhs, rhs)
    case Binary(Or, l, r) =>
      var lhs, rhs := NewExprGuard(l), NewExprGuard(r);
      if lhs.MatchNone? then rhs
      else if rhs.MatchNone? then lhs
      else if lhs.MatchAll? || rhs.MatchAll? then MatchAll
      else Either(lhs, rhs)
    case Binary(op, l, r) => NewBinaryExprGuard(op, l, r)
    case _ => MatchAll
  }

  function NewBinaryExprGuard(op: Op, lhs: Expr, rhs: Expr): (g: ExprGuard)
  {
    if lhs.Binary? || rhs.Binary? then MatchAll
    else if lhs.VarRef? then KeyedGuard(op, lhs, rhs)
    else if rhs.VarRef? then KeyedGuard(op, rhs, lhs)
    else MatchAll
  }

  function KeyedGuard(op: Op, key: Expr, value: Expr): (g: ExprGuard)
    requires key.VarRef?
  {
    if key.name != NAME_KEY && key.typ.OtherType? then MatchAll
    else match value
      case StringLit(s) =>
        if op.Eq? then TagMatches(key.name == NAME_KEY, key.name, false, s)
        else if op.Neq? then TagMatches(key.name == NAME_KEY, key.name, true, s)
        else MatchAll
      case RegexLit(_) => TagExists({key.name})
      case VarRef(name, _) =>
        if key.name == NAME_KEY || name == NAME_KEY then MatchAll else TagExists({key.name, name})
      case _ => MatchAll
  }

  ghost predicate HasTag(pt: Point, key: string) {
    exists i :: 0 <= i < |pt.tags| && pt.tags[i].key == key
  }

  /** exprGuard.matches, with its two loops over the tags written as quantifiers; the loops
      themselves are `AnyTagMatches` and `AnyTagExists` below. */
  ghost predicate Matches(g: ExprGuard, pt: Point) {
    match g
    case MatchAll => true
    case MatchNone => false
    case Both(l, r) => Matches(l, pt) && Matches(r, pt)
    case Either(l, r) => Matches(l, pt) || Matches(r, pt)
    case TagMatches(meas, key, negated, val) =>
      if meas then (pt.name == val) != negated
      else exists i :: 0 <= i < |pt.tags| && pt.tags[i].key == key && ((pt.tags[i].value == val) != negated)
    case TagExists(keys) => exists i :: 0 <= i < |pt.tags| && pt.tags[i].key in keys
  }

  // ---------- simplification preserves meaning ----------

  /** Evaluation of the condition with no simplification: the connectives are the logical
      ones and only the comparisons at the leaves go through the leaf compiler. */
  ghost predicate Unsimplified(e: Expr, pt: Point) {
    match e
    case Paren(inner) => Unsimplified(inner, pt)
    case BoolLit(b) => b
    case Binary(And, l, r) => Unsimplified(l, pt) && Unsimplified(r, pt)
    case Binary(Or, l, r) => Unsimplified(l, pt) || Unsimplified(r, pt)
    case Binary(op, l, r) => Matches(NewBinaryExprGuard(op, l, r), pt)
    case _ => true
  }

  lemma {:induction false} SimplificationPreservesMeaning(e: Expr, pt: Point)
    ensures Matches(NewExprGuard(e), pt) == Unsimplified(e, pt)
  {
    match e
    case Paren(inner) => SimplificationPreservesMeaning(inner, pt);
    case Binary(And, l, r) =>
      SimplificationPreservesMeaning(l, pt);
      SimplificationPreservesMeaning(r, pt);
    case Binary(Or, l, r) =>
      SimplificationPreservesMeaning(l, pt);
      SimplificationPreservesMeaning(r, pt);
    case _ =>
  }

  /** The compiled tree holds no constant below a connective: every reduction the compiler
      can make has been made. */
  predicate Reduced(g: ExprGuard) {
    match g
    case Both(l, r) => Solid(l) && Solid(r) && Reduced(l) && Reduced(r)
    case Either(l, r) => Solid(l) && Solid(r) && Reduced(l) && Reduced(r)
    case _ => true
  }

  predicate Solid(g: ExprGuard) {
    !g.MatchAll? && !g.MatchNone?
  }

  lemma {:induction false} SimplifierReducesFully(e: Expr)
    ensures Reduced(NewExprGuard(e))
  {
    match e
    case Paren(inner) => SimplifierReducesFully(inner);
    case Binary(And, l, r) => SimplifierReducesFully(l); SimplifierReducesFully(r);
    case Binary(Or, l, r) => SimplifierReducesFully(l); SimplifierReducesFully(r);
    case _ =>
  }

  // ---------- the guard covers the delete ----------

  /** The value a delete condition sees for a tag: a missing tag reads as the empty string. */
  ghost function TagValue(pt: Point, key: string): (v: string) {
    if HasTag(pt, key)
    then var i :| 0 <= i < |pt.tags| && pt.tags[i].key == key; pt.tags[i].value
    else ""
  }

  /** Comparisons of the name or of a tag with a string literal have a fixed meaning. */
  predicate IsStringCompare(op: Op, key: Expr, value: Expr) {
    key.VarRef? && value.StringLit? && (op.Eq? || op.Neq?)
    && (key.name == NAME_KEY || !key.typ.OtherType?)
  }

  ghost predicate StringCompareHolds(op: Op, key: Expr, value: Expr, pt: Point)
    requires IsStringCompare(op, key, value)
  {
    var actual := if key.name == NAME_KEY then pt.name else TagValue(pt, key.name);
    (actual == value.str) == op.Eq?
  }

  /** What the delete itself selects. Leaves whose meaning guard.go does not use (regular
      expressions, two references, field comparisons, ...) are decided by the arbitrary
      oracle `o`, so a statement for all oracles covers whatever they mean. */
  ghost predicate Selects(e: Expr, pt: Point, o: (Expr, Point) -> bool) {
    match e
    case NoExpr => true
    case Paren(inner) => Selects(inner, pt, o)
    case BoolLit(b) => b
    case Binary(And, l, r) => Selects(l, pt, o) && Selects(r, pt, o)
    case Binary(Or, l, r) => Selects(l, pt, o) || Selects(r, pt, o)
    case Binary(op, l, r) =>
      if IsStringCompare(op, l, r) then StringCompareHolds(op, l, r, pt)
      else if IsStringCompare(op, r, l) then StringCompareHolds(op, r, l, pt)
      else o(e, pt)
    case _ => o(e, pt)
  }

  /** When a comparison leaf cannot under-approximate: the tag it looks at is there, or its
      absence already makes the comparison false. */
  ghost predicate SafeKeyed(op: Op, key: Expr, value: Expr, pt: Point)
    requires key.VarRef?
  {
    if key.name != NAME_KEY && key.typ.OtherType? then true
    else match value
      case StringLit(s) =>
        key.name == NAME_KEY || HasTag(pt, key.name) || (op.Eq? && s != "") || (op.Neq? && s == "")
        || !(op.Eq? || op.Neq?)
      case RegexLit(_) => HasTag(pt, key.name)
      case VarRef(name, _) =>
        key.name == NAME_KEY || name == NAME_KEY || HasTag(pt, key.name) || HasTag(pt, name)
      case _ => true
  }

  ghost predicate SafeLeaf(op: Op, lhs: Expr, rhs: Expr, pt: Point) {
    if lhs.Binary? || rhs.Binary? then true
    else if lhs.VarRef? then SafeKeyed(op, lhs, rhs, pt)
    else if rhs.VarRef? then SafeKeyed(op, rhs, lhs, pt)
    else true
  }

  ghost predicate SafeTree(e: Expr, pt: Point) {
    match e
    case Paren(inner) => SafeTree(inner, pt)
    case Binary(And, l, r) => SafeTree(l, pt) && SafeTree(r, pt)
    case Binary(Or, l, r) => SafeTree(l, pt) && SafeTree(r, pt)
    case Binary(op, l, r) => SafeLeaf(op, l, r, pt)
    case _ => true
  }

  lemma KeyedLeafCovers(op: Op, key: Expr, value: Expr, e: Expr, pt: Point, o: (Expr, Point) -> bool)
    requires key.VarRef? && !value.Binary? && !op.And? && !op.Or?
    requires e == Binary(op, key, value) || (e == Binary(op, value, key) && !value.VarRef?)
    requires SafeKeyed(op, key, value, pt)
    requires Selects(e, pt, o)
    ensures Matches(KeyedGuard(op, key, value), pt)
  {
    if IsStringCompare(op, key, value) && key.name != NAME_KEY {
      if HasTag(pt, key.name) {
        var i :| 0 <= i < |pt.tags| && pt.tags[i].key == key.name && TagValue(pt, key.name) == pt.tags[i].value;
        assert (pt.tags[i].value == value.str) == op.Eq?;
      }
    }
  }

  /** For one comparison the condition is exact: the guard covers it, whatever the
      uninterpreted leaves mean, if and only if the leaf is safe for the point. */
  lemma LeafCoversIffSafe(op: Op, l: Expr, r: Expr, pt: Point)
    requires !op.And? && !op.Or?
    ensures (forall o: (Expr, Point) -> bool ::
               Selects(Binary(op, l, r), pt, o) ==> Matches(NewBinaryExprGuard(op, l, r), pt))
       <==> SafeLeaf(op, l, r, pt)
  {
    var e := Binary(op, l, r);
    if SafeLeaf(op, l, r, pt) {
      forall o: (Expr, Point) -> bool | Selects(e, pt, o)
        ensures Matches(NewBinaryExprGuard(op, l, r), pt)
      {
        if !l.Binary? && !r.Binary? {
          if l.VarRef? { KeyedLeafCovers(op, l, r, e, pt, o); }
          else if r.VarRef? { KeyedLeafCovers(op, r, l, e, pt, o); }
        }
      }
    } else {
      var yes := (x: Expr, p: Point) => true;
      var key, value := if l.VarRef? then l else r, if l.VarRef? then r else l;
      assert !SafeKeyed(op, key, value, pt);
      assert Selects(e, pt, yes);
      assert !Matches(KeyedGuard(op, key, value), pt);
      assert NewBinaryExprGuard(op, l, r) == KeyedGuard(op, key, value);
      assert exists o: (Expr, Point) -> bool :: Selects(e, pt, o) && !Matches(NewBinaryExprGuard(op, l, r), pt);
    }
  }

  lemma {:induction false} SafeTreeCovers(e: Expr, pt: Point, o: (Expr, Point) -> bool)
    requires SafeTree(e, pt)
    requires Selects(e, pt, o)
    ensures Unsimplified(e, pt)
  {
    match e
    case Paren(inner) => SafeTreeCovers(inner, pt, o);
    case Binary(And, l, r) => SafeTreeCovers(l, pt, o); SafeTreeCovers(r, pt, o);
    case Binary(Or, l, r) =>
      if Selects(l, pt, o) { SafeTreeCovers(l, pt, o); } else { SafeTreeCovers(r, pt, o); }
    case Binary(op, l, r) => LeafCoversIffSafe(op, l, r, pt);
    case _ =>
  }

  // ---------- the whole guard ----------

  datatype Guard = Guard(min: int, max: int, names: set<string>, expr: ExprGuard)

  function NewGuard(min: int, max: int, names: seq<string>, e: Expr): (g: Guard) {
    Guard(min, max, (set n | n in names), NewExprGuard(e))
  }

  ghost predicate MatchesPoint(g: Guard, pt: Point) {
    g.min <= pt.time <= g.max && (g.names == {} || pt.name in g.names) && Matches(g.expr, pt)
  }

  /** A nil guard matches every batch, the empty one included. */
  ghost predicate MatchesAny(g: Option<Guard>, points: seq<Point>) {
    g.None? || exists i :: 0 <= i < |points| && MatchesPoint(g.value, points[i])
  }

  /** A delete over [min, max], the given measurements (all of them when the list is empty)
      and condition `e` never selects a point of a batch that its guard does not match,
      as long as the condition is safe for that point. */
  lemma GuardCoversDelete(min: int, max: int, names: seq<string>, e: Expr, points: seq<Point>, i: nat,
                          o: (Expr, Point) -> bool)
    requires i < |points|
    requires min <= points[i].time <= max
    requires names == [] || points[i].name in names
    requires Selects(e, points[i], o) && SafeTree(e, points[i])
    ensures MatchesAny(Some(NewGuard(min, max, names, e)), points)
  {
    SafeTreeCovers(e, points[i], o);
    SimplificationPreservesMeaning(e, points[i]);
    assert MatchesPoint(NewGuard(min, max, names, e), points[i]);
  }

  /** The oracle under which every leaf that guard.go does not use is true. */
  ghost function AllTrue(): (o: (Expr, Point) -> bool) {
    (e: Expr, pt: Point) => true
  }

  lemma {:induction false} SelectsIsMonotone(e: Expr, pt: Point, o: (Expr, Point) -> bool)
    requires Selects(e, pt, o)
    ensures Selects(e, pt, AllTrue())
  {
    match e
    case Paren(inner) => SelectsIsMonotone(inner, pt, o);
    case Binary(And, l, r) =>
      SelectsIsMonotone(l, pt, o);
      SelectsIsMonotone(r, pt, o);
    case Binary(Or, l, r) =>
      if Selects(l, pt, o) { SelectsIsMonotone(l, pt, o); } else { SelectsIsMonotone(r, pt, o); }
    case _ =>
  }

  /** For a whole condition: the guard of a delete matches a point of its time range and
      measurements whenever the delete can select it, whatever the uninterpreted leaves mean, if
      and only if it does so when all of them are true. */
  lemma GuardCoversIff(min: int, max: int, names: seq<string>, e: Expr, pt: Point)
    requires min <= pt.time <= max && (names == [] || pt.name in names)
    ensures (forall o: (Expr, Point) -> bool :: Selects(e, pt, o) ==> MatchesPoint(NewGuard(min, max, names, e), pt))
       <==> (Selects(e, pt, AllTrue()) ==> Unsimplified(e, pt))
  {
    SimplificationPreservesMeaning(e, pt);
    assert MatchesPoint(NewGuard(min, max, names, e), pt) <==> Unsimplified(e, pt);
    forall o: (Expr, Point) -> bool | Selects(e, pt, o) ensures Selects(e, pt, AllTrue()) {
      SelectsIsMonotone(e, pt, o);
    }
  }

  /** Every tag key an expression mentions; `_name` does not count as a tag. */
  function TagKeys(e: Expr): set<string> {
    match e
    case Paren(inner) => TagKeys(inner)
    case Binary(_, l, r) => TagKeys(l) + TagKeys(r)
    case VarRef(name, _) => if name == NAME_KEY then {} else {name}
    case _ => {}
  }

  /** No regular expression is applied to the measurement name. */
  predicate NameOnlyAgainstStrings(e: Expr) {
    match e
    case Paren(inner) => NameOnlyAgainstStrings(inner)
    case Binary(_, l, r) =>
      NameOnlyAgainstStrings(l) && NameOnlyAgainstStrings(r)
      && !(l.VarRef? && l.name == NAME_KEY && r.RegexLit?)
      && !(r.VarRef? && r.name == NAME_KEY && l.RegexLit?)
    case _ => true
  }

  lemma {:induction false} FullyTaggedIsSafe(e: Expr, pt: Point)
    requires forall k :: k in TagKeys(e) ==> HasTag(pt, k)
    requires NameOnlyAgainstStrings(e)
    ensures SafeTree(e, pt)
  {
    match e
    case Paren(inner) => FullyTaggedIsSafe(inner, pt);
    case Binary(op, l, r) =>
      FullyTaggedIsSafe(l, pt);
      FullyTaggedIsSafe(r, pt);
    case _ =>
  }

  /** Without the tag the guard can miss: `host != 'a'` selects a point that has no host tag,
      and the guard compiled from it lets that point through. */
  lemma MissingTagEscapesGuard()
    ensures var e := Binary(Neq, VarRef("host", UnknownType), StringLit("a"));
            var pt := Point("cpu", [], 0);
            (forall o: (Expr, Point) -> bool :: Selects(e, pt, o))
            && !MatchesAny(Some(NewGuard(0, 0, [], e)), [pt])
  {
    var e := Binary(Neq, VarRef("host", UnknownType), StringLit("a"));
    var pt := Point("cpu", [], 0);
    assert IsStringCompare(Neq, e.lhs, e.rhs);
    assert "" != "a";
    assert NewExprGuard(e) == TagMatches(false, "host", true, "a") by {
      assert "host" != NAME_KEY by { assert "host"[0] != NAME_KEY[0]; }
    }
  }

  // ---------- the loops ----------

  method AnyTagMatches(pt: Point, key: string, negated: bool, val: string) returns (found: bool)
    ensures found == Matches(TagMatches(false, key, negated, val), pt)
  {
    for i := 0 to |pt.tags|
      invariant forall k :: 0 <= k < i ==> !(pt.tags[k].key == key && ((pt.tags[k].value == val) != negated))
    {
      if pt.tags[i].key == key && ((pt.tags[i].value == val) != negated) { return true; }
    }
    return false;
  }

  method AnyTagExists(pt: Point, keys: set<string>) returns (found: bool)
    ensures found == Matches(TagExists(keys), pt)
  {
    for i := 0 to |pt.tags|
      invariant forall k :: 0 <= k < i ==> pt.tags[k].key !in keys
    {
      if pt.tags[i].key in keys { return true; }
    }
    return false;
  }

  method ExprMatches(g: ExprGuard, pt: Point) returns (m: bool)
    ensures m == Matches(g, pt)
    decreases g
  {
    match g
    case MatchAll => m := true;
    case MatchNone => m := false;
    case Both(l, r) =>
      m := ExprMatches(l, pt);
      if m { m := ExprMatches(r, pt); }
    case Either(l, r) =>
      m := ExprMatches(l, pt);
      if !m { m := ExprMatches(r, pt); }
    case TagMatches(meas, key, negated, val) =>
      if meas { m := (pt.name == val) != negated; }
      else { m := AnyTagMatches(pt, key, negated, val); }
    case TagExists(keys) => m := AnyTagExists(pt, keys);
  }

  method GuardMatches(g: Option<Guard>, points: seq<Point>) returns (m: bool)
    ensures m == MatchesAny(g, points)
  {
    if g.None? { return true; }
    for i := 0 to |points|
      invariant forall k :: 0 <= k < i ==> !MatchesPoint(g.value, points[k])
    {
      var t := points[i].time;
      if t < g.value.min || t > g.value.max { continue; }
      if g.value.names == {} || points[i].name in g.value.names {
        var hit := ExprMatches(g.value.expr, points[i]);
        if hit { return true; }
      }
    }
    return false;
  }
}
