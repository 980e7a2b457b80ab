/** The compiled rules of one actor and the reads made against them: the class-level gate, the
    query pre-filter, the instance check and the response mask. */
module Abilities {
  import opened Predicates

  datatype Action = Read | Create | Update | Delete | Manage

  /** An entity type. */
  type Subject = nat

  /** Which fields may be read back. */
  datatype FieldSet = AllFields | Only(names: set<string>)

  datatype Rule = Rule(inverted: bool, condition: Condition, matcher: Predicate, fields: FieldSet)

  type Rules = map<(Action, Subject), seq<Rule>>

  function Stored(rules: Rules, action: Action, subject: Subject): seq<Rule> {
    if (action, subject) in rules then rules[(action, subject)] else []
  }

  /** The rules of the action itself, then those of the `Manage` wildcard. */
  function RulesFor(rules: Rules, action: Action, subject: Subject): seq<Rule> {
    Stored(rules, action, subject) + (if action.Manage? then [] else Stored(rules, Manage, subject))
  }

  /** Every stored condition is the lowering of the predicate stored beside it. */
  ghost predicate Coherent(rs: seq<Rule>) {
    forall r :: r in rs ==> r.condition == ToCondition(r.matcher)
  }

  ghost predicate CoherentRules(rules: Rules) {
    forall k :: k in rules ==> Coherent(rules[k])
  }

  /** The literals of the rules have the variants of their columns. */
  ghost predicate WellTyped(rs: seq<Rule>) {
    forall r :: r in rs ==> Typed(r.matcher)
  }

  ghost predicate WellTypedRules(rules: Rules) {
    forall k :: k in rules ==> WellTyped(rules[k])
  }

  lemma RulesForSound(rules: Rules, action: Action, subject: Subject)
    requires CoherentRules(rules) && WellTypedRules(rules)
    ensures Coherent(RulesFor(rules, action, subject)) && WellTyped(RulesFor(rules, action, subject))
  {
  }

  // ---------------------------------------------------------------- what the reads mean

  ghost predicate Granted(rs: seq<Rule>, row: Row) {
    exists r :: r in rs && !r.inverted && Matches(r.matcher, row)
  }

  ghost predicate Denied(rs: seq<Rule>, row: Row) {
    exists r :: r in rs && r.inverted && Matches(r.matcher, row)
  }

  /** The instance check: some grant matches and no denial does. */
  ghost predicate Allows(rs: seq<Rule>, row: Row) {
    Granted(rs, row) && !Denied(rs, row)
  }

  /** The wildcard reaches every action: what `Manage` rules grant is allowed for it unless denied,
      and what they deny is denied for it; the rules of other actions play no part. */
  lemma ManageCoversEveryAction(rules: Rules, action: Action, subject: Subject, row: Row)
    ensures Granted(RulesFor(rules, action, subject), row) <==>
              Granted(Stored(rules, action, subject), row) || Granted(Stored(rules, Manage, subject), row)
    ensures Denied(RulesFor(rules, action, subject), row) <==>
              Denied(Stored(rules, action, subject), row) || Denied(Stored(rules, Manage, subject), row)
    ensures Denied(Stored(rules, Manage, subject), row) ==> !Allows(RulesFor(rules, action, subject), row)
    ensures forall r :: r in RulesFor(rules, action, subject) <==>
              || ((action, subject) in rules && r in rules[(action, subject)])
              || ((Manage, subject) in rules && r in rules[(Manage, subject)])
  {
    var rs := RulesFor(rules, action, subject);
    assert forall r :: r in rs <==> r in Stored(rules, action, subject) || r in Stored(rules, Manage, subject);
  }

  function ConditionsOf(rs: seq<Rule>, inverted: bool): seq<Condition> {
    if rs == [] then []
    else
      var last := rs[|rs| - 1];
      ConditionsOf(rs[..|rs| - 1], inverted) + (if last.inverted == inverted then [last.condition] else [])
  }

  /** The pre-filter: any grant and not any denial; without a grant, nothing. */
  function ConditionFor(rs: seq<Rule>): Condition {
    var grants, denials := ConditionsOf(rs, false), ConditionsOf(rs, true);
    if grants == [] then Add(EMPTY_ALL, Constant(false))
    else
      var out := Add(EMPTY_ALL, Group(Any, false, grants));
      if denials == [] then out else Add(out, Flip(Group(Any, false, denials)))
  }

  ghost predicate NullFreeRules(rs: seq<Rule>, row: Row) {
    forall r :: r in rs ==> NullFree(r.matcher, row)
  }

  lemma {:induction false} ConditionsOfMembers(rs: seq<Rule>, inverted: bool)
    ensures forall r :: r in rs && r.inverted == inverted ==> r.condition in ConditionsOf(rs, inverted)
    ensures forall c :: c in ConditionsOf(rs, inverted) ==>
              exists r :: r in rs && r.inverted == inverted && r.condition == c
  {
    if rs != [] {
      var front, last := rs[..|rs| - 1], rs[|rs| - 1];
      assert rs == front + [last];
      ConditionsOfMembers(front, inverted);
      forall c | c in ConditionsOf(rs, inverted)
        ensures exists r :: r in rs && r.inverted == inverted && r.condition == c
      {
        if c in ConditionsOf(front, inverted) {
          var r :| r in front && r.inverted == inverted && r.condition == c;
          assert r in rs;
        } else {
          assert last in rs;
        }
      }
    }
  }

  lemma {:induction false} EvalAnyMeaning(cs: seq<Condition>, row: Row)
    ensures EvalAny(cs, row).True? <==> exists c :: c in cs && Eval(c, row).True?
    ensures EvalAny(cs, row).False? <==> forall c :: c in cs ==> Eval(c, row).False?
  {
    if cs != [] {
      var head, tail := cs[0], cs[1..];
      EvalAnyMeaning(tail, row);
      assert head in cs && forall c :: c in tail ==> c in cs;
      assert forall c :: c in cs ==> c == head || c in tail;
    }
  }

  lemma AnyConditionHolds(rs: seq<Rule>, inverted: bool, row: Row)
    requires Coherent(rs) && WellTyped(rs)
    ensures var t := EvalAny(ConditionsOf(rs, inverted), row);
      && (t.True? <==>
            exists r :: r in rs && r.inverted == inverted && Matches(r.matcher, row) && Definite(r.matcher, row))
      && (t.False? <==>
            forall r :: r in rs && r.inverted == inverted ==> !Matches(r.matcher, row) && Definite(r.matcher, row))
  {
    ConditionsOfMembers(rs, inverted);
    EvalAnyMeaning(ConditionsOf(rs, inverted), row);
    forall r | r in rs ensures Eval(r.condition, row) == Reading(Definite(r.matcher, row), Matches(r.matcher, row)) {
      SqlReading(r.matcher, row);
    }
  }

  lemma AddTwo(a: Condition, b: Condition)
    ensures Add(Add(EMPTY_ALL, a), b) == Group(All, false, [a] + ([b] + []))
  {
    assert ([] + [a]) + [b] == [a] + ([b] + []);
  }

  lemma TwoTerms(a: Condition, b: Condition, row: Row)
    ensures Eval(Add(Add(EMPTY_ALL, a), b), row) == And(Eval(a, row), Eval(b, row))
  {
    var tail := [b] + [];
    AddTwo(a, b);
    EvalGroup([a] + tail, row);
    EvalAllCons(a, tail, row);
    EvalAllCons(b, [], row);
  }

  /** What the assembled condition evaluates to. */
  lemma ConditionForMeaning(rs: seq<Rule>, row: Row)
    ensures Kept(ConditionFor(rs), row) <==>
              EvalAny(ConditionsOf(rs, false), row).True? && EvalAny(ConditionsOf(rs, true), row).False?
  {
    var grants, denials := ConditionsOf(rs, false), ConditionsOf(rs, true);
    if grants == [] {
      SingleTerm(Constant(false), row);
    } else {
      EvalGroup(grants, row);
      if denials == [] {
        SingleTerm(Group(Any, false, grants), row);
      } else {
        EvalGroup(denials, row);
        FlipNegates(Group(Any, false, denials), row);
        TwoTerms(Group(Any, false, grants), Flip(Group(Any, false, denials)), row);
      }
    }
  }

  predicate Grants(r: Rule, row: Row) {
    !r.inverted && Matches(r.matcher, row)
  }

  /** NULL does not get in the way: a grant that matches is definite, and so is every denial. */
  ghost predicate NullsAside(rs: seq<Rule>, row: Row) {
    && (exists r :: r in rs && Grants(r, row) && Definite(r.matcher, row))
    && (forall r :: r in rs && r.inverted ==> Definite(r.matcher, row))
  }

  /** The pre-filter, exactly, in terms of the instance check: it keeps the rows that pass the check
      and on which NULL does not get in the way. */
  lemma PrefilterExactly(rs: seq<Rule>, row: Row)
    requires Coherent(rs) && WellTyped(rs)
    ensures Kept(ConditionFor(rs), row) <==> Allows(rs, row) && NullsAside(rs, row)
  {
    ConditionForMeaning(rs, row);
    AnyConditionHolds(rs, false, row);
    AnyConditionHolds(rs, true, row);
  }

  /** A row the query keeps passes the instance check; where no NULL takes part, both accept the
      same rows. */
  lemma PrefilterRefinesCheck(rs: seq<Rule>, row: Row)
    requires Coherent(rs) && WellTyped(rs)
    ensures Kept(ConditionFor(rs), row) ==> Allows(rs, row)
    ensures NullFreeRules(rs, row) ==> (Kept(ConditionFor(rs), row) <==> Allows(rs, row))
  {
    PrefilterExactly(rs, row);
    if NullFreeRules(rs, row) {
      forall r | r in rs ensures Definite(r.matcher, row) {
        NullFreeIsDefinite(r.matcher, row);
      }
    }
  }

  /** Rules that only grant, by positive predicates, need no care about NULLs in the rows at all. */
  lemma PositiveGrantsAgree(rs: seq<Rule>, row: Row)
    requires Coherent(rs) && WellTyped(rs) && forall r :: r in rs ==> !r.inverted && Positive(r.matcher)
    ensures Kept(ConditionFor(rs), row) <==> Allows(rs, row)
  {
    PrefilterExactly(rs, row);
    forall r | r in rs && Matches(r.matcher, row) ensures Definite(r.matcher, row) {
      PositiveMatchIsDefinite(r.matcher, row);
    }
  }

  /** A denial on a nullable column hides, from the query only, every row where that column is NULL. */
  lemma NullGap(row: Row, c: Column, v: Value)
    requires row.Get(c).IsNull() && !v.IsNull() && v.variant == c.Kind()
    ensures var deny := Rule(true, ToCondition(Eq(c, v)), Eq(c, v), AllFields);
            var rs := [Rule(false, ToCondition(Always), Always, AllFields), deny];
            Coherent(rs) && WellTyped(rs) && Allows(rs, row) && !Kept(ConditionFor(rs), row)
  {
    var deny := Rule(true, ToCondition(Eq(c, v)), Eq(c, v), AllFields);
    var rs := [Rule(false, ToCondition(Always), Always, AllFields), deny];
    assert rs[0] in rs && Matches(rs[0].matcher, row);
    assert rs[1] in rs && !Definite(rs[1].matcher, row);
    PrefilterExactly(rs, row);
  }

  // ---------------------------------------------------------------- fields and masking

  type Body = map<string, Value>

  predicate Names(fs: FieldSet, f: string) {
    fs.AllFields? || f in fs.names
  }

  /** Field `f` may be read back: a matching grant is unrestricted or names it. */
  ghost predicate Permitted(rs: seq<Rule>, row: Row, f: string) {
    exists r :: r in rs && Grants(r, row) && Names(r.fields, f)
  }

  ghost predicate Unrestricted(rs: seq<Rule>, row: Row) {
    exists r :: r in rs && Grants(r, row) && r.fields.AllFields?
  }

  lemma OneMoreRule(rs: seq<Rule>, i: nat, row: Row)
    requires i < |rs|
    ensures Unrestricted(rs[..i + 1], row) <==>
              Unrestricted(rs[..i], row) || (Grants(rs[i], row) && rs[i].fields.AllFields?)
    ensures forall f :: Permitted(rs[..i + 1], row, f) <==>
              Permitted(rs[..i], row, f) || (Grants(rs[i], row) && Names(rs[i].fields, f))
  {
    var more := rs[..i + 1];
    assert more == rs[..i] + [rs[i]];
    assert rs[i] in more;
    assert forall r :: r in rs[..i] ==> r in more;
    assert forall r :: r in more ==> r in rs[..i] || r == rs[i];
  }

  /** A serialized row keeps exactly its permitted fields, unchanged. */
  ghost function Masked(rs: seq<Rule>, row: Row, body: Body): Body {
    map f | f in body && Permitted(rs, row, f) :: body[f]
  }

  /** What one row contributes to a masked collection. */
  ghost function MaskedRow(rs: seq<Rule>, row: (Row, Body)): seq<Body> {
    if Allows(rs, row.0) then [Masked(rs, row.0, row.1)] else []
  }

  ghost function Flatten<T>(parts: seq<seq<T>>): seq<T> {
    if parts == [] then [] else Flatten(parts[..|parts| - 1]) + parts[|parts| - 1]
  }

  ghost function MaskedRows(rs: seq<Rule>, rows: seq<(Row, Body)>): seq<Body> {
    Flatten(seq(|rows|, i requires 0 <= i < |rows| => MaskedRow(rs, rows[i])))
  }

  /** `out` is `body` without the fields that no matching grant permits, and nothing else. */
  ghost predicate MasksBody(rs: seq<Rule>, row: Row, body: Body, out: Body) {
    && (forall f :: f in out <==> f in body && exists r :: r in rs && !r.inverted && Matches(r.matcher, row)
                                                          && (r.fields.AllFields? || f in r.fields.names))
    && forall f :: f in out ==> out[f] == body[f]
  }

  lemma MaskedExactly(rs: seq<Rule>, row: Row, body: Body)
    ensures MasksBody(rs, row, body, Masked(rs, row, body))
  {
    forall f | f in body
      ensures Permitted(rs, row, f) <==> exists r :: r in rs && !r.inverted && Matches(r.matcher, row)
                                                     && (r.fields.AllFields? || f in r.fields.names)
    {
      if r :| r in rs && !r.inverted && Matches(r.matcher, row) && (r.fields.AllFields? || f in r.fields.names) {
        assert Grants(r, row) && Names(r.fields, f);
      }
    }
  }

  /** `kept` are the positions below `n` of the rows that pass the instance check, in order. */
  ghost predicate Passing(rs: seq<Rule>, rows: seq<(Row, Body)>, n: nat, kept: seq<nat>)
    requires n <= |rows|
  {
    && (forall a, b :: 0 <= a < b < |kept| ==> kept[a] < kept[b])
    && forall i: nat :: i in kept <==> i < n && Allows(rs, rows[i].0)
  }

  ghost predicate MasksKept(rs: seq<Rule>, rows: seq<(Row, Body)>, kept: seq<nat>, out: seq<Body>) {
    && |out| == |kept|
    && forall a :: 0 <= a < |kept| ==> kept[a] < |rows| && MasksBody(rs, rows[kept[a]].0, rows[kept[a]].1, out[a])
  }

  lemma OneMoreKept(rs: seq<Rule>, rows: seq<(Row, Body)>, n: nat, kept: seq<nat>, out: seq<Body>)
    requires n < |rows| && Passing(rs, rows, n, kept) && MasksKept(rs, rows, kept, out)
    ensures Allows(rs, rows[n].0) ==> Passing(rs, rows, n + 1, kept + [n])
    ensures !Allows(rs, rows[n].0) ==> Passing(rs, rows, n + 1, kept)
    ensures MasksKept(rs, rows, kept + [n], out + [Masked(rs, rows[n].0, rows[n].1)])
  {
    assert forall a :: 0 <= a < |kept| ==> kept[a] in kept;
    MaskedExactly(rs, rows[n].0, rows[n].1);
  }

  lemma OneMoreRow(rs: seq<Rule>, rows: seq<(Row, Body)>, i: nat)
    requires i < |rows|
    ensures MaskedRows(rs, rows[..i + 1]) == MaskedRows(rs, rows[..i]) + MaskedRow(rs, rows[i])
  {
    var more := seq(|rows[..i + 1]|, j requires 0 <= j < |rows[..i + 1]| => MaskedRow(rs, rows[..i + 1][j]));
    var some := seq(|rows[..i]|, j requires 0 <= j < |rows[..i]| => MaskedRow(rs, rows[..i][j]));
    assert more[..i] == some;
  }

  lemma {:induction false} MaskedUpTo(rs: seq<Rule>, rows: seq<(Row, Body)>, n: nat) returns (kept: seq<nat>)
    requires n <= |rows|
    ensures Passing(rs, rows, n, kept) && MasksKept(rs, rows, kept, MaskedRows(rs, rows[..n]))
  {
    kept := [];
    if n > 0 {
      kept := MaskedUpTo(rs, rows, n - 1);
      OneMoreRow(rs, rows, n - 1);
      OneMoreKept(rs, rows, n - 1, kept, MaskedRows(rs, rows[..n - 1]));
      if Allows(rs, rows[n - 1].0) {
        kept := kept + [n - 1];
      }
    }
  }

  /** What a masked collection is: one body for each row that passes the instance check, in order, with
      exactly the fields that some matching grant permits. */
  lemma MaskedRowsExactly(rs: seq<Rule>, rows: seq<(Row, Body)>) returns (kept: seq<nat>)
    ensures Passing(rs, rows, |rows|, kept) && MasksKept(rs, rows, kept, MaskedRows(rs, rows))
  {
    kept := MaskedUpTo(rs, rows, |rows|);
    assert rows[..|rows|] == rows;
  }

  lemma {:induction false} FlattenSingletons<T>(parts: seq<seq<T>>)
    requires forall i :: 0 <= i < |parts| ==> |parts[i]| == 1
    ensures |Flatten(parts)| == |parts| && forall i :: 0 <= i < |parts| ==> Flatten(parts)[i] == parts[i][0]
  {
    if parts != [] {
      FlattenSingletons(parts[..|parts| - 1]);
    }
  }

  class Ability {
    var rules: Rules

    constructor ()
      ensures rules == map[]
    {
      rules := map[];
    }

    method AddRule(action: Action, subject: Subject, rule: Rule)
      modifies this
      ensures rules == old(rules)[(action, subject) := Stored(old(rules), action, subject) + [rule]]
      ensures (action, subject) in rules
      ensures rules[(action, subject)] ==
                (if (action, subject) in old(rules) then old(rules)[(action, subject)] else []) + [rule]
      ensures old(CoherentRules(rules)) && rule.condition == ToCondition(rule.matcher) ==> CoherentRules(rules)
    {
      var stored := if (action, subject) in rules then rules[(action, subject)] else [];
      rules := rules[(action, subject) := stored + [rule]];
    }

    /** The coarse gate: any grant at all. */
    method CanClass(action: Action, subject: Subject) returns (r: bool)
      ensures r <==> exists g :: g in RulesFor(rules, action, subject) && !g.inverted
    {
      var rs := RulesFor(rules, action, subject);
      r := exists g | g in rs :: !g.inverted;
    }

    /** The query pre-filter. */
    method BuildCondition(action: Action, subject: Subject) returns (out: Condition)
      ensures out == ConditionFor(RulesFor(rules, action, subject))
    {
      var rs := RulesFor(rules, action, subject);
      var grant, deny := EMPTY_ANY, EMPTY_ANY;
      for i := 0 to |rs|
        invariant grant == Group(Any, false, ConditionsOf(rs[..i], false))
        invariant deny == Group(Any, false, ConditionsOf(rs[..i], true))
      {
        assert rs[..i + 1][..i] == rs[..i];
        if rs[i].inverted {
          deny := Add(deny, rs[i].condition);
        } else {
          grant := Add(grant, rs[i].condition);
        }
      }
      assert rs[..|rs|] == rs;
      if grant.parts == [] {
        return Add(EMPTY_ALL, Constant(false));
      }
      out := Add(EMPTY_ALL, grant);
      if deny.parts != [] {
        out := Add(out, Flip(deny));
      }
    }

    /** The instance check, returning at the first denial that matches. */
    method Can(action: Action, subject: Subject, row: Row) returns (allowed: bool)
      ensures allowed <==> Allows(RulesFor(rules, action, subject), row)
    {
      var rs := RulesFor(rules, action, subject);
      allowed := false;
      for i := 0 to |rs|
        invariant allowed <==> exists j :: 0 <= j < i && !rs[j].inverted && Matches(rs[j].matcher, row)
        invariant forall j :: 0 <= j < i && rs[j].inverted ==> !Matches(rs[j].matcher, row)
      {
        if Matches(rs[i].matcher, row) {
          if rs[i].inverted {
            assert rs[i] in rs;
            return false;
          }
          allowed := true;
        }
      }
    }

    /** The union of the fields of the matching grants. */
    method PermittedFields(action: Action, subject: Subject, row: Row) returns (fs: FieldSet)
      ensures fs.AllFields? <==> Unrestricted(RulesFor(rules, action, subject), row)
      ensures forall f :: Names(fs, f) <==> Permitted(RulesFor(rules, action, subject), row, f)
    {
      var rs := RulesFor(rules, action, subject);
      var acc: set<string> := {};
      for i := 0 to |rs|
        invariant !Unrestricted(rs[..i], row)
        invariant forall f :: f in acc <==> Permitted(rs[..i], row, f)
      {
        OneMoreRule(rs, i, row);
        if !rs[i].inverted && Matches(rs[i].matcher, row) {
          match rs[i].fields {
            case AllFields =>
              assert rs[i] in rs;
              return AllFields;
            case Only(names) =>
              acc := acc + names;
          }
        }
      }
      assert rs[..|rs|] == rs;
      return Only(acc);
    }

    method Mask(action: Action, subject: Subject, row: Row, body: Body) returns (masked: Body)
      ensures masked == Masked(RulesFor(rules, action, subject), row, body)
      ensures MasksBody(RulesFor(rules, action, subject), row, body, masked)
    {
      MaskedExactly(RulesFor(rules, action, subject), row, body);
      var fs := PermittedFields(action, subject, row);
      masked := if fs.AllFields? then body else map f | f in body && f in fs.names :: body[f];
    }

    /** Drop the rows that fail the instance check and mask the others, in order. */
    method MaskMany(action: Action, subject: Subject, rows: seq<(Row, Body)>) returns (out: seq<Body>)
      ensures out == MaskedRows(RulesFor(rules, action, subject), rows)
      ensures exists kept :: Passing(RulesFor(rules, action, subject), rows, |rows|, kept)
                             && MasksKept(RulesFor(rules, action, subject), rows, kept, out)
    {
      out := [];
      ghost var rs := RulesFor(rules, action, subject);
      for i := 0 to |rows|
        invariant out == MaskedRows(rs, rows[..i])
      {
        OneMoreRow(rs, rows, i);
        var allowed := Can(action, subject, rows[i].0);
        if allowed {
          var masked := Mask(action, subject, rows[i].0, rows[i].1);
          out := out + [masked];
        }
      }
      assert rows[..|rows|] == rows;
      ghost var kept := MaskedRowsExactly(rs, rows);
    }
  }

  /** Defence in depth loses nothing: the response mask drops none of the rows the pre-filter let
      through, and strips from each only fields no matching grant permits. */
  lemma MaskDropsNoPrefilteredRow(rs: seq<Rule>, rows: seq<(Row, Body)>)
    requires Coherent(rs) && WellTyped(rs) && forall i :: 0 <= i < |rows| ==> Kept(ConditionFor(rs), rows[i].0)
    ensures |MaskedRows(rs, rows)| == |rows|
    ensures forall i :: 0 <= i < |rows| ==> MaskedRows(rs, rows)[i] == Masked(rs, rows[i].0, rows[i].1)
  {
    var parts := seq(|rows|, i requires 0 <= i < |rows| => MaskedRow(rs, rows[i]));
    forall i | 0 <= i < |rows| ensures parts[i] == [Masked(rs, rows[i].0, rows[i].1)] {
      PrefilterRefinesCheck(rs, rows[i].0);
    }
    FlattenSingletons(parts);
  }

  /** A literal of another variant than its column loses rows: the query returns the row, and the mask
      drops it. */
  lemma VariantDropsRow(row: Row, body: Body, c: Column, v: Value)
    requires !v.IsNull() && v.variant != c.Kind() && row.Get(c).content == v.content
    ensures var rs := [Rule(false, ToCondition(Eq(c, v)), Eq(c, v), AllFields)];
            Coherent(rs) && Kept(ConditionFor(rs), row) && MaskedRows(rs, [(row, body)]) == []
  {
    var rs := [Rule(false, ToCondition(Eq(c, v)), Eq(c, v), AllFields)];
    ConditionsOfMembers(rs, false);
    ConditionsOfMembers(rs, true);
    assert rs[0] in rs;
    EvalAnyMeaning(ConditionsOf(rs, false), row);
    EvalAnyMeaning(ConditionsOf(rs, true), row);
    SingleTerm(Compare(c, v), row);
    ConditionForMeaning(rs, row);
    OneMoreRow(rs, [(row, body)], 0);
    assert [(row, body)][..1] == [(row, body)];
  }

  // ---------------------------------------------------------------- the builder

  /** One rule being written; ending the statement drops it, which commits it. */
  class RuleSpec {
    const ability: Ability
    const action: Action
    const inverted: bool
    const subject: Subject
    var matcher: Predicate
    var fields: FieldSet

    constructor (ability: Ability, action: Action, subject: Subject, inverted: bool)
      ensures this.ability == ability && this.action == action && this.subject == subject && this.inverted == inverted
      ensures matcher == Always && fields == AllFields
    {
      this.ability, this.action, this.subject, this.inverted := ability, action, subject, inverted;
      matcher, fields := Always, AllFields;
    }

    method When(p: Predicate)
      modifies this
      ensures matcher == p && fields == old(fields)
    {
      matcher := p;
    }

    method Fields(names: set<string>)
      modifies this
      ensures fields == Only(names) && matcher == old(matcher)
    {
      fields := Only(names);
    }

    /** The committed rule stores the lowering of the very predicate it stores. */
    method Drop()
      modifies this, ability
      ensures ability.rules == old(ability.rules)[(action, subject) :=
                Stored(old(ability.rules), action, subject)
                + [Rule(inverted, ToCondition(old(matcher)), old(matcher), old(fields))]]
      ensures old(CoherentRules(ability.rules)) ==> CoherentRules(ability.rules)
      ensures matcher == Always && fields == AllFields
    {
      var condition := ToCondition(matcher);
      var taken, names := matcher, fields;
      matcher, fields := Always, AllFields;
      ability.AddRule(action, subject, Rule(inverted, condition, taken, names));
    }
  }
}
