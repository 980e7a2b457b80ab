/** Ability-scoped reads and writes over one table, and the CRUD service above them. */
module Repository {
  import opened Basics
  import opened Predicates
  import opened Abilities

  /** Rows by primary key. */
  type Table = map<int, Row>

  ghost predicate WellKeyed(t: Table) {
    forall k :: k in t ==> t[k].id == k
  }

  /** The ambient ability of the request, and the entity being queried. */
  datatype Caller = Caller(ability: Option<Rules>, subject: Subject)

  /** The rules were committed by the builder, with literals of their columns' variants. */
  ghost predicate Trusted(c: Caller) {
    c.ability.Some? ==> CoherentRules(c.ability.value) && WellTypedRules(c.ability.value)
  }

  function RulesOf(c: Caller, action: Action): seq<Rule>
    requires c.ability.Some?
  {
    RulesFor(c.ability.value, action, c.subject)
  }

  /** The row filter of the caller; without an ability, the identity. */
  function ScopeFor(c: Caller, action: Action): Condition {
    if c.ability.Some? then ConditionFor(RulesOf(c, action)) else EMPTY_ALL
  }

  /** The caller may `action` the row, and NULL does not get in the way of the query that says so. */
  ghost predicate Accessible(c: Caller, action: Action, row: Row) {
    c.ability.Some? ==>
      var rules := RulesFor(c.ability.value, action, c.subject);
      Allows(rules, row) && NullsAside(rules, row)
  }

  /** The scope of any action: without an ability, every row; under one, the rows that pass its instance
      check and on which NULL does not get in the way. */
  lemma ScopeExactly(c: Caller, action: Action, row: Row)
    requires Trusted(c)
    ensures Kept(ScopeFor(c, action), row) <==> Accessible(c, action, row)
  {
    if c.ability.Some? {
      RulesForSound(c.ability.value, action, c.subject);
      PrefilterExactly(RulesOf(c, action), row);
    } else {
      assert EvalAll([], row) == True;
    }
  }

  function Scoped(t: Table, c: Caller, action: Action): Table {
    map k | k in t && Kept(ScopeFor(c, action), t[k]) :: t[k]
  }

  /** What an `ActiveModel` writes: the key it addresses and the columns it sets. */
  datatype ActiveModel = ActiveModel(id: int, cells: map<Column, Option<int>>)

  datatype Access = Found(row: Row) | Denied | Missing

  datatype Reply = Done(row: Row) | Deleted | RecordNotUpdated | RecordNotFound | UniqueViolation

  /** One call of the service that may change the table. */
  datatype Operation = CreateRow(row: Row) | UpdateRow(active: ActiveModel) | DeleteRow(id: int)

  /** The row's key is in the scope of the action. */
  predicate InScope(t: Table, c: Caller, action: Action, id: int) {
    id in t && Kept(ScopeFor(c, action), t[id])
  }

  function Apply(t: Table, c: Caller, op: Operation): Table {
    match op
    case CreateRow(row) => if row.id in t then t else t[row.id := row]
    case UpdateRow(a) =>
      if InScope(t, c, Update, a.id) then t[a.id := t[a.id].(cells := t[a.id].cells + a.cells)] else t
    case DeleteRow(id) => if InScope(t, c, Delete, id) then t - {id} else t
  }

  function Answer(t: Table, c: Caller, op: Operation): Reply {
    match op
    case CreateRow(row) => if row.id in t then UniqueViolation else Done(row)
    case UpdateRow(a) => if InScope(t, c, Update, a.id) then Done(Apply(t, c, op)[a.id]) else RecordNotUpdated
    case DeleteRow(id) => if InScope(t, c, Delete, id) then Deleted else RecordNotFound
  }

  /** The unscoped load followed by the instance check. */
  ghost function AccessTo(t: Table, c: Caller, action: Action, id: int): Access {
    if id !in t then Missing
    else if c.ability.Some? && Allows(RulesOf(c, action), t[id]) then Found(t[id])
    else Denied
  }

  /** A row by key, when the caller's read scope holds it. */
  function FoundById(t: Table, c: Caller, id: int): Option<Row> {
    if id in Scoped(t, c, Read) then Some(t[id]) else None
  }

  class Store {
    var rows: Table

    constructor (rows: Table)
      ensures this.rows == rows
    {
      this.rows := rows;
    }

    /** `Repo::all`, and the service's `list`. */
    method All(c: Caller) returns (out: Table)
      ensures out == Scoped(rows, c, Read)
      ensures Trusted(c) ==> forall k :: k in out <==> k in rows && Accessible(c, Read, rows[k])
      ensures forall k :: k in out ==> k in rows && out[k] == rows[k]
      ensures c.ability.None? ==> out == rows
    {
      forall k | k in rows && Trusted(c) ensures Kept(ScopeFor(c, Read), rows[k]) <==> Accessible(c, Read, rows[k]) {
        ScopeExactly(c, Read, rows[k]);
      }
      out := map k | k in rows && Kept(ScopeFor(c, Read), rows[k]) :: rows[k];
    }

    /** A row outside the caller's scope reads as absent. */
    method FindById(c: Caller, id: int) returns (out: Option<Row>)
      ensures out == FoundById(rows, c, id)
      ensures Trusted(c) ==> (out.Some? <==> id in rows && Accessible(c, Read, rows[id]))
      ensures out.Some? ==> id in rows && out.value == rows[id]
    {
      if Trusted(c) && id in rows { ScopeExactly(c, Read, rows[id]); }
      if id in rows && Kept(ScopeFor(c, Read), rows[id]) {
        return Some(rows[id]);
      }
      return None;
    }

    method LoadFor(c: Caller, action: Action, id: int) returns (out: Access)
      ensures out == AccessTo(rows, c, action, id)
      ensures out == if id !in rows then Missing
                     else if c.ability.Some? && Allows(RulesFor(c.ability.value, action, c.subject), rows[id])
                     then Found(rows[id]) else Denied
    {
      if id !in rows {
        return Missing;
      }
      var allowed := false;
      if c.ability.Some? {
        var ability := new Ability();
        ability.rules := c.ability.value;
        allowed := ability.Can(action, c.subject, rows[id]);
      }
      out := if allowed then Found(rows[id]) else Denied;
    }

    method Create(c: Caller, row: Row) returns (r: Reply)
      modifies this
      ensures rows == Apply(old(rows), c, CreateRow(row)) && r == Answer(old(rows), c, CreateRow(row))
      ensures r == (if row.id in old(rows) then UniqueViolation else Done(row))
      ensures rows == if row.id in old(rows) then old(rows) else old(rows)[row.id := row]
    {
      if row.id in rows {
        return UniqueViolation;
      }
      rows := rows[row.id := row];
      return Done(row);
    }

    /** The `WHERE` of the write carries the caller's scope beside the primary key. */
    method Update(c: Caller, active: ActiveModel) returns (r: Reply)
      modifies this
      ensures rows == Apply(old(rows), c, UpdateRow(active)) && r == Answer(old(rows), c, UpdateRow(active))
      ensures r.Done? || (r == RecordNotUpdated && rows == old(rows))
      ensures Trusted(c) ==>
                (r.Done? <==> active.id in old(rows) && Accessible(c, Action.Update, old(rows)[active.id]))
      ensures r.Done? ==> active.id in rows && r.row == rows[active.id]
    {
      if Trusted(c) && active.id in rows { ScopeExactly(c, Action.Update, rows[active.id]); }
      var scope := ScopeFor(c, Action.Update);
      if active.id in rows && Kept(scope, rows[active.id]) {
        var row := rows[active.id];
        rows := rows[active.id := row.(cells := row.cells + active.cells)];
        return Done(rows[active.id]);
      }
      return RecordNotUpdated;
    }

    /** Zero rows affected is reported as not found. */
    method Delete(c: Caller, id: int) returns (r: Reply)
      modifies this
      ensures rows == Apply(old(rows), c, DeleteRow(id)) && r == Answer(old(rows), c, DeleteRow(id))
      ensures r == Deleted || r == RecordNotFound
      ensures Trusted(c) ==> (r == Deleted <==> id in old(rows) && Accessible(c, Action.Delete, old(rows)[id]))
      ensures rows == if r == Deleted then old(rows) - {id} else old(rows)
    {
      if Trusted(c) && id in rows { ScopeExactly(c, Action.Delete, rows[id]); }
      var scope := ScopeFor(c, Action.Delete);
      var affected := 0;
      if id in rows && Kept(scope, rows[id]) {
        rows := rows - {id};
        affected := 1;
      }
      if affected == 0 {
        return RecordNotFound;
      }
      return Deleted;
    }
  }

  function Target(op: Operation): int {
    match op
    case CreateRow(row) => row.id
    case UpdateRow(a) => a.id
    case DeleteRow(id) => id
  }

  function Written(a: ActiveModel, row: Row, col: Column): Value {
    if col.Col? && col in a.cells then Value(col.Kind(), a.cells[col]) else row.Get(col)
  }

  /** What a write does, cell by cell: only the addressed row can change; an update sets the named
      columns and leaves the others, the key included; what the reply reports is what is stored. */
  lemma WriteEffect(t: Table, c: Caller, op: Operation, k: int, col: Column)
    requires WellKeyed(t)
    ensures var u := Apply(t, c, op);
      && (k != Target(op) ==> (k in u <==> k in t) && (k in t ==> u[k] == t[k]))
      && (op.CreateRow? ==> Target(op) in u && (Target(op) in t ==> u == t))
      && (Answer(t, c, op).Done? ==> Target(op) in u && Answer(t, c, op).row == u[Target(op)])
      && (op.CreateRow? && Answer(t, c, op).Done? ==> u[Target(op)] == op.row)
      && (op.UpdateRow? && Answer(t, c, op).Done? ==>
            (Target(op) in t && u[Target(op)].Get(col) == Written(op.active, t[Target(op)], col)))
      && (Answer(t, c, op).Deleted? ==> Target(op) in t && Target(op) !in u)
  {
  }

  // ---------------------------------------------------------------- whole runs

  function Run(t: Table, c: Caller, ops: seq<Operation>): Table
    decreases ops
  {
    if ops == [] then t else Run(Apply(t, c, ops[0]), c, ops[1..])
  }

  /** Beyond the caller's reach: neither its update scope nor its delete scope holds the row. */
  predicate OutOfReach(t: Table, c: Caller, k: int)
    requires k in t
  {
    !InScope(t, c, Update, k) && !InScope(t, c, Delete, k)
  }

  lemma KeysStay(t: Table, c: Caller, op: Operation)
    requires WellKeyed(t)
    ensures WellKeyed(Apply(t, c, op))
  {
    var next := Apply(t, c, op);
    forall k | k in next ensures next[k].id == k {
      assert k in t ==> t[k].id == k;
    }
  }

  /** No sequence of service calls under one ability touches a row that was out of reach when it
      began, whatever it does to other rows. */
  lemma {:induction false} WholeRunFrame(t: Table, c: Caller, ops: seq<Operation>, k: int)
    requires WellKeyed(t) && k in t && OutOfReach(t, c, k)
    ensures k in Run(t, c, ops) && Run(t, c, ops)[k] == t[k]
    decreases ops
  {
    if ops != [] {
      var next := Apply(t, c, ops[0]);
      assert k in next && next[k] == t[k];
      KeysStay(t, c, ops[0]);
      WholeRunFrame(next, c, ops[1..], k);
    }
  }

  lemma SingleGrant(r: Rule, row: Row)
    requires !r.inverted && r.condition == ToCondition(r.matcher) && Typed(r.matcher) && NullFree(r.matcher, row)
    ensures Kept(ConditionFor([r]), row) <==> Matches(r.matcher, row)
  {
    var rs := [r];
    assert r in rs;
    PrefilterRefinesCheck(rs, row);
  }

  /** Both scopes are needed: a row that only may be updated can be brought into the delete scope. */
  lemma UpdateScopeAloneIsNotAFrame() returns (t: Table, c: Caller, ops: seq<Operation>, k: int)
    ensures WellKeyed(t) && Trusted(c) && k in t && !InScope(t, c, Delete, k) && k !in Run(t, c, ops)
  {
    var col := Col(0, Int);
    var del := Eq(col, Value(Int, Some(1)));
    var grantAll := Rule(false, ToCondition(Always), Always, AllFields);
    var grantDel := Rule(false, ToCondition(del), del, AllFields);
    c := Caller(Some(map[(Update, 0) := [grantAll], (Delete, 0) := [grantDel]]), 0);
    k, t := 7, map[7 := Row(7, map[col := Some(0)])];
    ops := [UpdateRow(ActiveModel(7, map[col := Some(1)])), DeleteRow(7)];
    var mid := Apply(t, c, ops[0]);
    SingleGrant(grantAll, t[7]);
    SingleGrant(grantDel, t[7]);
    assert RulesOf(c, Update) == [grantAll] && RulesOf(c, Delete) == [grantDel];
    assert mid[7].Get(col) == Value(Int, Some(1));
    SingleGrant(grantDel, mid[7]);
    assert Apply(mid, c, ops[1]) == map[];
    assert ops[1..] == [ops[1]] && ops[1..][1..] == [];
    assert Run(mid, c, [ops[1]]) == Run(map[], c, []);
    assert 7 !in Run(t, c, ops);
  }

  // ---------------------------------------------------------------- load and write agree

  function WriteOf(action: Action, a: ActiveModel): Operation {
    if action.Update? then UpdateRow(a) else DeleteRow(a.id)
  }

  /** Under an ability, a scoped write takes effect exactly when it addresses a row that the loader
      would have found and on which NULL does not get in the way; where no NULL takes part, a row the
      loader finds is never reported unwritable. */
  lemma LoadAndWriteAgree(t: Table, c: Caller, action: Action, a: ActiveModel)
    requires Trusted(c) && c.ability.Some? && (action.Update? || action.Delete?)
    ensures var reply := Answer(t, c, WriteOf(action, a));
      && (reply.Done? || reply.Deleted? <==>
            AccessTo(t, c, action, a.id).Found? && NullsAside(RulesOf(c, action), t[a.id]))
      && (reply.Done? || reply.Deleted? ==> AccessTo(t, c, action, a.id) == Found(t[a.id]))
      && (a.id in t && NullFreeRules(RulesOf(c, action), t[a.id]) ==>
            (AccessTo(t, c, action, a.id).Found? <==> reply.Done? || reply.Deleted?))
      && (reply.RecordNotUpdated? || reply.RecordNotFound? ==> Apply(t, c, WriteOf(action, a)) == t)
  {
    RulesForSound(c.ability.value, action, c.subject);
    if a.id in t {
      PrefilterExactly(RulesOf(c, action), t[a.id]);
      PrefilterRefinesCheck(RulesOf(c, action), t[a.id]);
    }
  }

  /** Without an ambient ability the two part completely: every load is denied, whatever the action, while
      every write of an existing row goes through and every lookup finds it. */
  lemma NoAbilityParts(t: Table, c: Caller, action: Action, a: ActiveModel)
    requires c.ability.None? && a.id in t
    ensures AccessTo(t, c, action, a.id) == Denied
    ensures var reply := Answer(t, c, WriteOf(action, a)); reply.Done? || reply.Deleted?
    ensures FoundById(t, c, a.id) == Some(t[a.id])
  {
    assert EvalAll([], t[a.id]) == True;
  }

  /** A row the loader does not find reads as absent to the scoped lookup, which cannot tell a denied
      row from a missing one; the loader can. */
  lemma LoaderRevealsExistence(t: Table, c: Caller, action: Action, id: int)
    ensures AccessTo(t, c, action, id).Missing? <==> id !in t
    ensures Trusted(c) && c.ability.Some? && action.Read? && FoundById(t, c, id).Some? ==>
              AccessTo(t, c, Read, id) == Found(t[id])
    ensures Trusted(c) && c.ability.Some? && action.Read? && !AccessTo(t, c, Read, id).Found? ==>
              FoundById(t, c, id) == None
  {
    if c.ability.Some? && id in t && Trusted(c) {
      RulesForSound(c.ability.value, action, c.subject);
      PrefilterRefinesCheck(RulesOf(c, action), t[id]);
    }
  }
}
