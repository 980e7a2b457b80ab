/** One condition AST, two interpreters: lowered to a SQL `WHERE` fragment, whose truth is that of
    section 8.12 of ISO/IEC 9075:1992, or evaluated in memory against a loaded row. */
module Predicates {
  import opened Basics

  /** The truth values of a SQL search condition. */
  datatype Truth = False | Unknown | True

  function And(a: Truth, b: Truth): Truth {
    if a.False? || b.False? then False else if a.True? && b.True? then True else Unknown
  }

  function Or(a: Truth, b: Truth): Truth {
    if a.True? || b.True? then True else if a.False? && b.False? then False else Unknown
  }

  function Not(a: Truth): Truth {
    match a case False => True case Unknown => Unknown case True => False
  }

  function Known(b: bool): Truth { if b then True else False }

  /** The type a value is bound with; others behave alike. */
  datatype Variant = Uuid | Int | BigInt | Text

  /** A typed, nullable value.  In memory two values are equal when variant and content are, NULL
      included; in SQL comparing with NULL is unknown, and otherwise only the contents matter. */
  datatype Value = Value(variant: Variant, content: Option<int>) {
    predicate IsNull() { content.None? }
  }

  /** `Id` is the primary key.  A column reads back in its own variant. */
  datatype Column = Id | Col(n: nat, variant: Variant) {
    function Kind(): Variant {
      if Id? then Uuid else variant
    }
  }

  datatype Row = Row(id: int, cells: map<Column, Option<int>>) {
    function Get(c: Column): Value {
      Value(c.Kind(), if c.Id? then Some(id) else if c in cells then cells[c] else None)
    }
  }

  datatype Predicate =
    | Always
    | Eq(column: Column, value: Value)
    | In(column: Column, values: seq<Value>)
    | AllOf(parts: seq<Predicate>)
    | AnyOf(parts: seq<Predicate>)
    | Negate(inner: Predicate)

  // ---------------------------------------------------------------- the in-memory interpreter

  predicate Matches(p: Predicate, row: Row)
    decreases p, 1
  {
    match p
    case Always => true
    case Eq(c, v) => row.Get(c) == v
    case In(c, vs) => row.Get(c) in vs
    case AllOf(parts) => AllMatch(parts, row)
    case AnyOf(parts) => AnyMatches(parts, row)
    case Negate(inner) => !Matches(inner, row)
  }

  predicate AllMatch(ps: seq<Predicate>, row: Row)
    decreases ps, 0
  {
    ps == [] || (Matches(ps[0], row) && AllMatch(ps[1..], row))
  }

  predicate AnyMatches(ps: seq<Predicate>, row: Row)
    decreases ps, 0
  {
    ps != [] && (Matches(ps[0], row) || AnyMatches(ps[1..], row))
  }

  lemma {:induction false} PartsMatch(ps: seq<Predicate>, row: Row)
    ensures AllMatch(ps, row) <==> forall p :: p in ps ==> Matches(p, row)
    ensures AnyMatches(ps, row) <==> exists p :: p in ps && Matches(p, row)
  {
    if ps != [] {
      PartsMatch(ps[1..], row);
      assert ps[0] in ps && forall p :: p in ps[1..] ==> p in ps;
      assert forall p :: p in ps ==> p == ps[0] || p in ps[1..];
    }
  }

  /** What a predicate says of a loaded row.  An empty conjunction holds and an empty disjunction does
      not. */
  lemma MatchesMeaning(p: Predicate, row: Row)
    ensures Matches(p, row) <==>
      match p
      case Always => true
      case Eq(c, v) => row.Get(c).variant == v.variant && row.Get(c).content == v.content
      case In(c, vs) => exists v :: v in vs && row.Get(c).variant == v.variant && row.Get(c).content == v.content
      case AllOf(parts) => forall q :: q in parts ==> Matches(q, row)
      case AnyOf(parts) => exists q :: q in parts && Matches(q, row)
      case Negate(inner) => !Matches(inner, row)
  {
    match p {
      case AllOf(parts) => PartsMatch(parts, row);
      case AnyOf(parts) => PartsMatch(parts, row);
      case In(c, vs) =>
        if v :| v in vs && row.Get(c).variant == v.variant && row.Get(c).content == v.content {
          assert v == row.Get(c);
        }
      case _ =>
    }
  }

  // ---------------------------------------------------------------- the SQL interpreter

  datatype Junction = All | Any

  /** The query builder's condition: a junction of expressions and conditions, possibly negated. */
  datatype Condition =
    | Compare(column: Column, value: Value)
    | InList(column: Column, values: seq<Value>)
    | Constant(holds: bool)
    | Group(junction: Junction, negated: bool, parts: seq<Condition>)

  /** `Condition::add`. */
  function Add(g: Condition, c: Condition): Condition
    requires g.Group?
  {
    g.(parts := g.parts + [c])
  }

  /** `Condition::not` flips the negation flag. */
  function Flip(g: Condition): Condition
    requires g.Group?
  {
    g.(negated := !g.negated)
  }

  const EMPTY_ALL := Group(All, false, [])
  const EMPTY_ANY := Group(Any, false, [])

  /** Section 8.2: a comparison with a null operand is unknown. */
  function CompareValues(a: Value, b: Value): Truth {
    if a.IsNull() || b.IsNull() then Unknown else Known(a.content == b.content)
  }

  /** Section 8.4: `IN` is a disjunction of comparisons; an empty list is false. */
  function InValues(a: Value, vs: seq<Value>): Truth {
    if vs == [] then False else Or(CompareValues(a, vs[0]), InValues(a, vs[1..]))
  }

  /** An empty conjunction is true and an empty disjunction false. */
  function Eval(c: Condition, row: Row): Truth
    decreases c, 1
  {
    match c
    case Compare(col, v) => CompareValues(row.Get(col), v)
    case InList(col, vs) => InValues(row.Get(col), vs)
    case Constant(b) => Known(b)
    case Group(j, negated, parts) =>
      var t := if j.All? then EvalAll(parts, row) else EvalAny(parts, row);
      if negated then Not(t) else t
  }

  function EvalAll(cs: seq<Condition>, row: Row): Truth
    decreases cs, 0
  {
    if cs == [] then True else And(Eval(cs[0], row), EvalAll(cs[1..], row))
  }

  function EvalAny(cs: seq<Condition>, row: Row): Truth
    decreases cs, 0
  {
    if cs == [] then False else Or(Eval(cs[0], row), EvalAny(cs[1..], row))
  }

  /** `WHERE` keeps the rows for which the condition is true, not unknown. */
  predicate Kept(c: Condition, row: Row) {
    Eval(c, row).True?
  }

  // ---------------------------------------------------------------- lowering

  function ToCondition(p: Predicate): (c: Condition)
    ensures c.Group?
    decreases p, 1
  {
    match p
    case Always => EMPTY_ALL
    case Eq(col, v) => Add(EMPTY_ALL, Compare(col, v))
    case In(col, vs) => Add(EMPTY_ALL, InList(col, vs))
    case AllOf(parts) => FoldAdd(EMPTY_ALL, parts)
    case AnyOf(parts) => FoldAdd(EMPTY_ANY, parts)
    case Negate(inner) => Flip(ToCondition(inner))
  }

  /** The lowered parts are added to the junction one after another. */
  function FoldAdd(acc: Condition, ps: seq<Predicate>): (c: Condition)
    requires acc.Group?
    ensures c.Group? && c.junction == acc.junction && c.negated == acc.negated
    decreases ps, 0
  {
    if ps == [] then acc else FoldAdd(Add(acc, ToCondition(ps[0])), ps[1..])
  }

  function Lowered(ps: seq<Predicate>): seq<Condition> {
    seq(|ps|, i requires 0 <= i < |ps| => ToCondition(ps[i]))
  }

  lemma {:induction false} FoldAddParts(acc: Condition, ps: seq<Predicate>)
    requires acc.Group?
    ensures FoldAdd(acc, ps).parts == acc.parts + Lowered(ps)
    decreases ps
  {
    if ps != [] {
      FoldAddParts(Add(acc, ToCondition(ps[0])), ps[1..]);
      assert Lowered(ps) == [ToCondition(ps[0])] + Lowered(ps[1..]);
    }
  }

  // ---------------------------------------------------------------- what the SQL reading is

  /** Each literal that is not NULL is in the list in the column's own variant as well. */
  predicate LiteralsFit(c: Column, vs: seq<Value>) {
    forall v :: v in vs && !v.IsNull() ==> Value(c.Kind(), v.content) in vs
  }

  /** Rule literals have the variants of their columns. */
  predicate Typed(p: Predicate)
    decreases p, 1
  {
    match p
    case Always => true
    case Eq(c, v) => LiteralsFit(c, [v])
    case In(c, vs) => LiteralsFit(c, vs)
    case AllOf(parts) => AllTyped(parts)
    case AnyOf(parts) => AllTyped(parts)
    case Negate(inner) => Typed(inner)
  }

  predicate AllTyped(ps: seq<Predicate>)
    decreases ps, 0
  {
    ps == [] || (Typed(ps[0]) && AllTyped(ps[1..]))
  }

  predicate NoNull(vs: seq<Value>) {
    forall v :: v in vs ==> !v.IsNull()
  }

  /** The SQL answer is not unknown: no NULL takes part, or a part that is settled settles the junction
      whatever is unknown beside it. */
  predicate Definite(p: Predicate, row: Row)
    decreases p, 1
  {
    match p
    case Always => true
    case Eq(c, v) => !row.Get(c).IsNull() && !v.IsNull()
    case In(c, vs) => vs == [] || (!row.Get(c).IsNull() && (row.Get(c) in vs || NoNull(vs)))
    case AllOf(parts) => AllDefinite(parts, row) || SomeSettles(parts, row, false)
    case AnyOf(parts) => AllDefinite(parts, row) || SomeSettles(parts, row, true)
    case Negate(inner) => Definite(inner, row)
  }

  predicate AllDefinite(ps: seq<Predicate>, row: Row)
    decreases ps, 0
  {
    ps == [] || (Definite(ps[0], row) && AllDefinite(ps[1..], row))
  }

  predicate SomeSettles(ps: seq<Predicate>, row: Row, answer: bool)
    decreases ps, 0
  {
    ps != [] && ((Definite(ps[0], row) && Matches(ps[0], row) == answer) || SomeSettles(ps[1..], row, answer))
  }

  /** The in-memory answer where it is definite, and unknown elsewhere. */
  function Reading(definite: bool, matches: bool): Truth {
    if definite then Known(matches) else Unknown
  }

  lemma {:induction false} InMeaning(a: Value, vs: seq<Value>)
    ensures InValues(a, vs).True? <==> exists v :: v in vs && CompareValues(a, v).True?
    ensures InValues(a, vs).False? <==> forall v :: v in vs ==> CompareValues(a, v).False?
  {
    if vs != [] {
      InMeaning(a, vs[1..]);
      assert vs == [vs[0]] + vs[1..];
    }
  }

  lemma InReading(c: Column, vs: seq<Value>, row: Row)
    requires LiteralsFit(c, vs)
    ensures InValues(row.Get(c), vs) == Reading(Definite(In(c, vs), row), row.Get(c) in vs)
  {
    var a := row.Get(c);
    InMeaning(a, vs);
    if vs != [] {
      assert vs[0] in vs;
    }
    assert forall v :: v in vs && CompareValues(a, v).True? ==> a in vs;
  }

  lemma EvalAllCons(c: Condition, cs: seq<Condition>, row: Row)
    ensures EvalAll([c] + cs, row) == And(Eval(c, row), EvalAll(cs, row))
  {
    assert ([c] + cs)[1..] == cs;
  }

  lemma SingleTerm(c: Condition, row: Row)
    ensures Eval(Add(EMPTY_ALL, c), row) == Eval(c, row)
  {
    EvalAllCons(c, [], row);
    assert Add(EMPTY_ALL, c).parts == [c] + [];
  }

  lemma FlipNegates(g: Condition, row: Row)
    requires g.Group?
    ensures Eval(Flip(g), row) == Not(Eval(g, row))
  {
  }

  /** The SQL reading, exactly, in terms of the in-memory one. */
  lemma {:induction false} SqlReading(p: Predicate, row: Row)
    requires Typed(p)
    ensures Eval(ToCondition(p), row) == Reading(Definite(p, row), Matches(p, row))
    decreases p, 1
  {
    match p {
      case Always =>
        assert EvalAll([], row) == True;
      case Eq(c, v) =>
        SingleTerm(Compare(c, v), row);
        assert v in [v];
      case In(c, vs) =>
        SingleTerm(InList(c, vs), row);
        InReading(c, vs, row);
      case AllOf(parts) =>
        FoldAddParts(EMPTY_ALL, parts);
        assert FoldAdd(EMPTY_ALL, parts).parts == Lowered(parts);
        PartsReading(parts, row);
      case AnyOf(parts) =>
        FoldAddParts(EMPTY_ANY, parts);
        assert FoldAdd(EMPTY_ANY, parts).parts == Lowered(parts);
        PartsReading(parts, row);
      case Negate(inner) =>
        SqlReading(inner, row);
        FlipNegates(ToCondition(inner), row);
    }
  }

  lemma {:induction false} PartsReading(ps: seq<Predicate>, row: Row)
    requires AllTyped(ps)
    ensures EvalAll(Lowered(ps), row) == Reading(AllDefinite(ps, row) || SomeSettles(ps, row, false), AllMatch(ps, row))
    ensures EvalAny(Lowered(ps), row)
         == Reading(AllDefinite(ps, row) || SomeSettles(ps, row, true), AnyMatches(ps, row))
    ensures SomeSettles(ps, row, false) ==> !AllMatch(ps, row)
    ensures SomeSettles(ps, row, true) ==> AnyMatches(ps, row)
    ensures AllDefinite(ps, row) && AnyMatches(ps, row) ==> SomeSettles(ps, row, true)
    ensures AllDefinite(ps, row) && !AllMatch(ps, row) ==> SomeSettles(ps, row, false)
    decreases ps, 0
  {
    if ps != [] {
      SqlReading(ps[0], row);
      PartsReading(ps[1..], row);
      assert Lowered(ps)[1..] == Lowered(ps[1..]);
      assert Lowered(ps)[0] == ToCondition(ps[0]);
    }
  }

  lemma EvalGroup(parts: seq<Condition>, row: Row)
    ensures Eval(Group(All, false, parts), row) == EvalAll(parts, row)
    ensures Eval(Group(Any, false, parts), row) == EvalAny(parts, row)
  {
  }

  // ---------------------------------------------------------------- agreement

  /** The definite SQL answers are the in-memory answer. */
  predicate Refines(t: Truth, b: bool) {
    (t.True? ==> b) && (t.False? ==> !b)
  }

  ghost predicate RefinesOn(p: Predicate, row: Row) {
    Refines(Eval(ToCondition(p), row), Matches(p, row))
  }

  /** No comparison the predicate makes on this row involves a NULL. */
  predicate NullFree(p: Predicate, row: Row)
    decreases p, 1
  {
    match p
    case Always => true
    case Eq(c, v) => !row.Get(c).IsNull() && !v.IsNull()
    case In(c, vs) => !row.Get(c).IsNull() && NoNull(vs)
    case AllOf(parts) => AllNullFree(parts, row)
    case AnyOf(parts) => AllNullFree(parts, row)
    case Negate(inner) => NullFree(inner, row)
  }

  predicate AllNullFree(ps: seq<Predicate>, row: Row)
    decreases ps, 0
  {
    ps == [] || (NullFree(ps[0], row) && AllNullFree(ps[1..], row))
  }

  lemma {:induction false} NullFreeIsDefinite(p: Predicate, row: Row)
    requires NullFree(p, row)
    ensures Definite(p, row)
    decreases p, 1
  {
    match p {
      case AllOf(parts) => PartsDefinite(parts, row);
      case AnyOf(parts) => PartsDefinite(parts, row);
      case Negate(inner) => NullFreeIsDefinite(inner, row);
      case _ =>
    }
  }

  lemma {:induction false} PartsDefinite(ps: seq<Predicate>, row: Row)
    requires AllNullFree(ps, row)
    ensures AllDefinite(ps, row)
    decreases ps, 0
  {
    if ps != [] {
      NullFreeIsDefinite(ps[0], row);
      PartsDefinite(ps[1..], row);
    }
  }

  /** Kleene refinement of the whole AST, exact wherever no NULL takes part. */
  lemma InterpretersAgree(p: Predicate, row: Row)
    requires Typed(p)
    ensures RefinesOn(p, row)
    ensures NullFree(p, row) ==> Eval(ToCondition(p), row) == Known(Matches(p, row))
  {
    SqlReading(p, row);
    if NullFree(p, row) {
      NullFreeIsDefinite(p, row);
    }
  }

  /** Only equalities with literals that are not NULL, and nothing negated. */
  predicate Positive(p: Predicate)
    decreases p, 1
  {
    match p
    case Always => true
    case Eq(_, v) => !v.IsNull()
    case In(_, vs) => NoNull(vs)
    case AllOf(parts) => AllPositive(parts)
    case AnyOf(parts) => AllPositive(parts)
    case Negate(_) => false
  }

  predicate AllPositive(ps: seq<Predicate>)
    decreases ps, 0
  {
    ps == [] || (Positive(ps[0]) && AllPositive(ps[1..]))
  }

  /** A positive predicate that matches is true in SQL, however many NULLs the row has. */
  lemma {:induction false} PositiveMatchIsDefinite(p: Predicate, row: Row)
    requires Positive(p) && Matches(p, row)
    ensures Definite(p, row)
    decreases p, 1
  {
    match p {
      case AllOf(parts) => PositiveParts(parts, row);
      case AnyOf(parts) => PositiveParts(parts, row);
      case _ =>
    }
  }

  lemma {:induction false} PositiveParts(ps: seq<Predicate>, row: Row)
    requires AllPositive(ps)
    ensures AllMatch(ps, row) ==> AllDefinite(ps, row)
    ensures AnyMatches(ps, row) ==> SomeSettles(ps, row, true)
    decreases ps, 0
  {
    if ps != [] {
      PositiveParts(ps[1..], row);
      if Matches(ps[0], row) {
        PositiveMatchIsDefinite(ps[0], row);
      }
    }
  }

  // ---------------------------------------------------------------- where they part

  /** With a NULL the two interpreters do part: `WHERE` drops the row, the in-memory check keeps it. */
  lemma NullParts(row: Row, c: Column, v: Value)
    requires row.Get(c).IsNull() && v.variant == c.Kind()
    ensures Matches(Eq(c, row.Get(c)), row) && !Kept(ToCondition(Eq(c, row.Get(c))), row)
    ensures !v.IsNull() ==> Matches(Negate(Eq(c, v)), row) && !Kept(ToCondition(Negate(Eq(c, v))), row)
  {
    SingleTerm(Compare(c, row.Get(c)), row);
    SingleTerm(Compare(c, v), row);
    FlipNegates(ToCondition(Eq(c, v)), row);
  }

  /** What an equality asks of a row.  In memory the literal has to be the stored value, variant included,
      and NULL equals NULL; in the query only the contents have to be the same, and NULL is kept by no
      literal.  The primary key is never NULL, and a column that was never set is. */
  lemma EqualityExactly(row: Row, n: nat, variant: Variant, v: Value)
    ensures Matches(Eq(Id, v), row) <==> v == Value(Uuid, Some(row.id))
    ensures Kept(ToCondition(Eq(Id, v)), row) <==> v.content == Some(row.id)
    ensures var c := Col(n, variant);
      var stored := if c in row.cells then row.cells[c] else None;
      && (Matches(Eq(c, v), row) <==> v == Value(variant, stored))
      && (Kept(ToCondition(Eq(c, v)), row) <==> v.content.Some? && v.content == stored)
  {
    SingleTerm(Compare(Id, v), row);
    SingleTerm(Compare(Col(n, variant), v), row);
  }

  /** Some row that holds `x` in column `c`. */
  function RowWith(c: Column, x: int): (row: Row)
    ensures row.Get(c) == Value(c.Kind(), Some(x))
  {
    if c.Id? then Row(x, map[]) else Row(0, map[c := Some(x)])
  }

  /** A literal bound in another variant than its column's makes them part the other way: SQL compares
      the contents and keeps the row, the in-memory check compares the variants as well and does not
      match.  A list of literals is safe on every row exactly when it fits its column. */
  lemma VariantsExactly(c: Column, vs: seq<Value>)
    ensures (forall row :: RefinesOn(In(c, vs), row)) <==> LiteralsFit(c, vs)
  {
    if LiteralsFit(c, vs) {
      forall row ensures RefinesOn(In(c, vs), row) {
        InterpretersAgree(In(c, vs), row);
      }
    } else {
      var v :| v in vs && !v.IsNull() && Value(c.Kind(), v.content) !in vs;
      var row := RowWith(c, v.content.value);
      SingleTerm(InList(c, vs), row);
      InMeaning(row.Get(c), vs);
      assert CompareValues(row.Get(c), v).True?;
      assert !RefinesOn(In(c, vs), row);
    }
  }

  /** The same for a single literal. */
  lemma VariantExactly(c: Column, v: Value)
    ensures (forall row :: RefinesOn(Eq(c, v), row)) <==> v.IsNull() || v.variant == c.Kind()
  {
    if v.IsNull() || v.variant == c.Kind() {
      forall row ensures RefinesOn(Eq(c, v), row) {
        InterpretersAgree(Eq(c, v), row);
      }
    } else {
      var row := RowWith(c, v.content.value);
      SingleTerm(Compare(c, v), row);
      assert !RefinesOn(Eq(c, v), row);
    }
  }
}
