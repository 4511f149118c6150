/**
 Records, field paths and the WHERE semantics: flat predicate lists, boolean
 filter trees, and the flattening the ghost router works on.
 */
module Filters {
  import opened Bytes
  import opened Values

  datatype Record = Record(lid: nat, lobe: string, fields: Fields, createdAt: I64, updatedAt: I64)

  datatype FilterOp = OpEq | OpNeq | OpGt | OpGte | OpLt | OpLte | OpIsNull | OpIsNotNull | OpContains | OpIn

  datatype Predicate = Predicate(field: string, op: FilterOp, value: Value)

  // ─── Paths ─────────────────────────────────────────────────────────────────

  /** The segments of a dotted path, in order; never empty. */
  function Split(path: string): (parts: seq<string>)
    ensures |parts| >= 1
    ensures '.' !in path <==> |parts| == 1
    ensures |parts| == 1 ==> parts[0] == path
  {
    if path == "" then [""]
    else
      var rest := Split(path[1..]);
      if path[0] == '.' then [""] + rest
      else [[path[0]] + rest[0]] + rest[1..]
  }

  lemma SplitDotted()
    ensures Split("a.b") == ["a", "b"]
  {
    assert Split("") == [""];
    assert "b"[1..] == "" && ['b'] + "" == "b";
    assert Split("b") == ["b"];
    assert ".b"[1..] == "b" && [""] + ["b"] == ["", "b"];
    var rest := Split(".b");
    assert rest == ["", "b"];
    assert "a.b"[1..] == ".b" && ['a'] + rest[0] == "a" && rest[1..] == ["b"];
  }

  /** `str::parse::<usize>`: an optional `+`, then decimal digits, below 2^64. */
  function ParseUsize(s: string): Option<nat> {
    var digits := if s != "" && s[0] == '+' then s[1..] else s;
    if digits == "" || exists k | 0 <= k < |digits| :: !('0' <= digits[k] <= '9') then None
    else
      var n := DecimalValue(digits);
      if n < 0x1_0000_0000_0000_0000 then Some(n) else None
  }

  function DecimalValue(s: string): nat
    requires forall k | 0 <= k < |s| :: '0' <= s[k] <= '9'
  {
    if s == "" then 0 else DecimalValue(s[..|s| - 1]) * 10 + (s[|s| - 1] as int - '0' as int)
  }

  /** One step into a nested value: a map key or a list index. */
  function Descend(v: Value, part: string): Option<Value> {
    match v
    case Map(m) => if part in m then Some(m[part]) else None
    case List(xs) =>
      (match ParseUsize(part)
       case Some(k) => if k < |xs| then Some(xs[k]) else None
       case None => None)
    case _ => None
  }

  function Walk(v: Value, parts: seq<string>): Option<Value> {
    if parts == [] then Some(v)
    else match Descend(v, parts[0])
      case Some(next) => Walk(next, parts[1..])
      case None => None
  }

  function Lookup(fields: Fields, name: string): Option<Value> {
    if name in fields then Some(fields[name]) else None
  }

  function ResolvePath(fields: Fields, path: string): Option<Value> {
    var parts := Split(path);
    match Lookup(fields, parts[0])
    case Some(v) => Walk(v, parts[1..])
    case None => None
  }

  /** The cursor loop of the source computes the denotation above. */
  method Resolve(fields: Fields, path: string) returns (r: Option<Value>)
    ensures r == ResolvePath(fields, path)
  {
    var parts := Split(path);
    if '.' !in path {
      return Lookup(fields, path);
    }
    if parts[0] !in fields {
      return None;
    }
    var current := fields[parts[0]];
    var i := 1;
    while i < |parts|
      invariant 1 <= i <= |parts|
      invariant ResolvePath(fields, path) == Walk(current, parts[i..])
    {
      var next := Descend(current, parts[i]);
      if next == None {
        return None;
      }
      assert parts[i..][1..] == parts[i + 1..];
      current := next.value;
      i := i + 1;
    }
    return Some(current);
  }

  // ─── Predicates ────────────────────────────────────────────────────────────

  predicate Holds(fields: Fields, p: Predicate) {
    var v := ResolvePath(fields, p.field);
    match p.op
    case OpIsNull => v == None || v.value == Null
    case OpIsNotNull => v.Some? && v.value != Null
    case OpContains => v.Some? && v.value.List? && exists k | 0 <= k < |v.value.items| :: Eq(v.value.items[k], p.value)
    case OpIn => v.Some? && p.value.List? && exists k | 0 <= k < |p.value.items| :: Eq(p.value.items[k], v.value)
    case OpEq => v.Some? && Eq(v.value, p.value)
    case OpNeq => v.Some? && !Eq(v.value, p.value)
    case OpGt => v.Some? && PartialCmp(v.value, p.value) == Some(Greater)
    case OpGte => v.Some? && PartialCmp(v.value, p.value) in {Some(Greater), Some(Ordering.Equal)}
    case OpLt => v.Some? && PartialCmp(v.value, p.value) == Some(Less)
    case OpLte => v.Some? && PartialCmp(v.value, p.value) in {Some(Less), Some(Ordering.Equal)}
  }

  /** `matches_filters`: every predicate holds. */
  predicate HoldsAll(fields: Fields, ps: seq<Predicate>) {
    forall k | 0 <= k < |ps| :: Holds(fields, ps[k])
  }

  /** Some record satisfies every predicate. */
  ghost predicate Matchable(ps: seq<Predicate>) {
    exists f: Fields :: HoldsAll(f, ps)
  }

  lemma {:induction false} HeadIsPlain(path: string)
    ensures '.' !in Split(path)[0]
  {
    if path != "" { HeadIsPlain(path[1..]); }
  }

  /** No path starts at a field whose name has a dot. */
  lemma DottedUnreached(f: Fields, g: Fields, name: string, ps: seq<Predicate>)
    requires '.' in name && forall n | n != name :: Lookup(f, n) == Lookup(g, n)
    ensures HoldsAll(f, ps) == HoldsAll(g, ps)
  {
    forall k | 0 <= k < |ps| ensures Holds(f, ps[k]) == Holds(g, ps[k]) {
      HeadIsPlain(ps[k].field);
      assert ResolvePath(f, ps[k].field) == ResolvePath(g, ps[k].field);
    }
  }

  /** `==` on predicate tuples, as the router compares them. */
  predicate SamePredicate(p: Predicate, q: Predicate) {
    p.field == q.field && p.op == q.op && Eq(p.value, q.value)
  }

  /** Predicates the router considers equal are true of the same records. */
  lemma SamePredicateSameMeaning(fields: Fields, p: Predicate, q: Predicate)
    requires SamePredicate(p, q)
    ensures Holds(fields, p) == Holds(fields, q)
  {
    var r := ResolvePath(fields, p.field);
    if r.Some? {
      var v := r.value;
      EqCongruent(v, p.value, q.value);
      PartialCmpCongruent(v, p.value, q.value);
      if v.List? {
        forall k | 0 <= k < |v.items| ensures Eq(v.items[k], p.value) == Eq(v.items[k], q.value) {
          EqCongruent(v.items[k], p.value, q.value);
        }
      }
      if p.value.List? {
        forall k | 0 <= k < |p.value.items| ensures Eq(p.value.items[k], v) == Eq(q.value.items[k], v) {
          EqSymmetric(p.value.items[k], v);
          EqSymmetric(q.value.items[k], v);
          EqCongruent(v, p.value.items[k], q.value.items[k]);
        }
      }
    }
  }

  // ─── Filters cannot tell equal values apart ────────────────────────────────

  lemma {:induction false} WalkCongruent(x: Value, y: Value, parts: seq<string>)
    requires Eq(x, y)
    ensures Walk(x, parts).Some? <==> Walk(y, parts).Some?
    ensures Walk(x, parts).Some? ==> Eq(Walk(x, parts).value, Walk(y, parts).value)
    decreases |parts|
  {
    if parts != [] {
      var u, w := Descend(x, parts[0]), Descend(y, parts[0]);
      assert u.Some? <==> w.Some?;
      if u.Some? { WalkCongruent(u.value, w.value, parts[1..]); }
    }
  }

  lemma PartialCmpSame(u: Value, w: Value, lit: Value)
    requires Eq(u, w)
    ensures PartialCmp(u, lit) == PartialCmp(w, lit)
  {
  }

  lemma EqSame(u: Value, w: Value, lit: Value)
    requires Eq(u, w)
    ensures Eq(u, lit) == Eq(w, lit) && Eq(lit, u) == Eq(lit, w)
  {
    EqCongruent(lit, u, w);
    EqSymmetric(lit, u);
    EqSymmetric(lit, w);
  }

  /** A predicate holds of both or neither of two records that resolve its path to equal values. */
  lemma HoldsSame(f: Fields, g: Fields, q: Predicate)
    requires var u, w := ResolvePath(f, q.field), ResolvePath(g, q.field);
             (u.Some? <==> w.Some?) && (u.Some? ==> Eq(u.value, w.value))
    ensures Holds(f, q) == Holds(g, q)
  {
    var u, w := ResolvePath(f, q.field), ResolvePath(g, q.field);
    if u.Some? {
      EqSame(u.value, w.value, q.value);
      PartialCmpSame(u.value, w.value, q.value);
      if u.value.List? {
        forall k | 0 <= k < |u.value.items| ensures Eq(u.value.items[k], q.value) == Eq(w.value.items[k], q.value) {
          EqSame(u.value.items[k], w.value.items[k], q.value);
        }
      }
      if q.value.List? {
        forall k | 0 <= k < |q.value.items| ensures Eq(q.value.items[k], u.value) == Eq(q.value.items[k], w.value) {
          EqSame(u.value, w.value, q.value.items[k]);
        }
      }
    }
  }

  /** Replacing a field by an equal value changes no filter. */
  lemma ReplaceEqual(f: Fields, name: string, x: Value, ps: seq<Predicate>)
    requires name in f && Eq(x, f[name])
    ensures HoldsAll(f[name := x], ps) == HoldsAll(f, ps)
  {
    forall k | 0 <= k < |ps| ensures Holds(f[name := x], ps[k]) == Holds(f, ps[k]) {
      var parts := Split(ps[k].field);
      if parts[0] == name {
        WalkCongruent(x, f[name], parts[1..]);
        HoldsSame(f[name := x], f, ps[k]);
      } else {
        assert ResolvePath(f[name := x], ps[k].field) == ResolvePath(f, ps[k].field);
      }
    }
  }

  // ─── Filter trees ──────────────────────────────────────────────────────────

  datatype FilterExpr =
    | Condition(p: Predicate)
    | And(exprs: seq<FilterExpr>)
    | Or(exprs: seq<FilterExpr>)
    | Not(e: FilterExpr)

  /** `matches_core_expr`: the single tree evaluator. */
  predicate Matches(fields: Fields, e: FilterExpr)
    decreases e
  {
    match e
    case Condition(p) => Holds(fields, p)
    case And(es) => forall k | 0 <= k < |es| :: Matches(fields, es[k])
    case Or(es) => exists k | 0 <= k < |es| :: Matches(fields, es[k])
    case Not(x) => !Matches(fields, x)
  }

  predicate MatchesOpt(fields: Fields, e: Option<FilterExpr>) {
    e.Some? ==> Matches(fields, e.value)
  }

  /** A filter tree cannot tell records apart in which every path resolves alike. */
  lemma {:induction false} SamePathsSameMatch(f: Fields, g: Fields, e: FilterExpr)
    requires forall path :: ResolvePath(f, path) == ResolvePath(g, path)
    ensures Matches(f, e) == Matches(g, e)
    decreases e
  {
    match e
    case Condition(p) => assert ResolvePath(f, p.field) == ResolvePath(g, p.field);
    case And(es) =>
      forall k | 0 <= k < |es| ensures Matches(f, es[k]) == Matches(g, es[k]) { SamePathsSameMatch(f, g, es[k]); }
    case Or(es) =>
      forall k | 0 <= k < |es| ensures Matches(f, es[k]) == Matches(g, es[k]) { SamePathsSameMatch(f, g, es[k]); }
    case Not(x) => SamePathsSameMatch(f, g, x);
  }

  /** Derived `==` on filter trees. */
  predicate SameExpr(a: FilterExpr, b: FilterExpr)
    decreases a
  {
    match (a, b)
    case (Condition(p), Condition(q)) => SamePredicate(p, q)
    case (And(x), And(y)) => |x| == |y| && forall k | 0 <= k < |x| :: SameExpr(x[k], y[k])
    case (Or(x), Or(y)) => |x| == |y| && forall k | 0 <= k < |x| :: SameExpr(x[k], y[k])
    case (Not(x), Not(y)) => SameExpr(x, y)
    case _ => false
  }

  lemma {:induction false} SameExprSameMeaning(fields: Fields, a: FilterExpr, b: FilterExpr)
    requires SameExpr(a, b)
    ensures Matches(fields, a) == Matches(fields, b)
    decreases a
  {
    match a
    case Condition(p) => SamePredicateSameMeaning(fields, p, b.p);
    case And(x) =>
      forall k | 0 <= k < |x| ensures Matches(fields, x[k]) == Matches(fields, b.exprs[k]) {
        SameExprSameMeaning(fields, x[k], b.exprs[k]);
      }
    case Or(x) =>
      forall k | 0 <= k < |x| ensures Matches(fields, x[k]) == Matches(fields, b.exprs[k]) {
        SameExprSameMeaning(fields, x[k], b.exprs[k]);
      }
    case Not(x) => SameExprSameMeaning(fields, x, b.e);
  }

  /** `as_flat_and`: the conjuncts of a pure AND tree, `None` under OR or NOT. */
  function AsFlatAnd(e: FilterExpr): Option<seq<Predicate>>
    decreases e, 0
  {
    match e
    case Condition(p) => Some([p])
    case And(es) => FlattenAll(es)
    case Or(_) => None
    case Not(_) => None
  }

  function FlattenAll(es: seq<FilterExpr>): Option<seq<Predicate>>
    decreases es, 1
  {
    if es == [] then Some([])
    else match (AsFlatAnd(es[0]), FlattenAll(es[1..]))
      case (Some(ps), Some(qs)) => Some(ps + qs)
      case _ => None
  }

  lemma HoldsAllConcat(fields: Fields, ps: seq<Predicate>, qs: seq<Predicate>)
    ensures HoldsAll(fields, ps + qs) == (HoldsAll(fields, ps) && HoldsAll(fields, qs))
  {
    if HoldsAll(fields, ps + qs) {
      forall k | 0 <= k < |ps| ensures Holds(fields, ps[k]) { assert (ps + qs)[k] == ps[k]; }
      forall k | 0 <= k < |qs| ensures Holds(fields, qs[k]) { assert (ps + qs)[|ps| + k] == qs[k]; }
    }
  }

  /** Flattening preserves meaning. */
  lemma {:induction false} FlatAndMeaning(fields: Fields, e: FilterExpr)
    requires AsFlatAnd(e).Some?
    ensures Matches(fields, e) == HoldsAll(fields, AsFlatAnd(e).value)
    decreases e, 0
  {
    match e
    case Condition(p) => assert [p][0] == p;
    case And(es) => FlattenAllMeaning(fields, es);
  }

  lemma {:induction false} FlattenAllMeaning(fields: Fields, es: seq<FilterExpr>)
    requires FlattenAll(es).Some?
    ensures (forall k | 0 <= k < |es| :: Matches(fields, es[k])) == HoldsAll(fields, FlattenAll(es).value)
    decreases es, 1
  {
    if es != [] {
      FlatAndMeaning(fields, es[0]);
      FlattenAllMeaning(fields, es[1..]);
      HoldsAllConcat(fields, AsFlatAnd(es[0]).value, FlattenAll(es[1..]).value);
      assert forall k | 1 <= k < |es| :: es[k] == es[1..][k - 1];
      assert forall k | 0 <= k < |es| - 1 :: es[1..][k] == es[k + 1];
    }
  }

  /** The flat conjuncts the engine derives from a WHERE; empty under OR or NOT. */
  function FlatFilters(e: Option<FilterExpr>): seq<Predicate> {
    if e.Some? && AsFlatAnd(e.value).Some? then AsFlatAnd(e.value).value else []
  }

  /** Whatever the tree is, its flat form is necessary for it. */
  lemma FlatFiltersNecessary(fields: Fields, e: Option<FilterExpr>)
    requires MatchesOpt(fields, e)
    ensures HoldsAll(fields, FlatFilters(e))
  {
    if e.Some? && AsFlatAnd(e.value).Some? { FlatAndMeaning(fields, e.value); }
  }

  // ─── Selection ─────────────────────────────────────────────────────────────

  /** The subsequence of records whose fields satisfy `f`. */
  function Select(records: seq<Record>, f: Fields -> bool): seq<Record> {
    if records == [] then []
    else (if f(records[0].fields) then [records[0]] else []) + Select(records[1..], f)
  }
}
