/** The `meals` table and the nine handlers of `mealsRoutes`. Every read,
    update and delete is one statement whose `where` object names the
    caller's user id; create inserts a row whose `userId` is the caller's
    id. The table is a sequence of rows in storage order. */
module Meals {
  import opened Values
  import opened Http

  /** A row of `meals`. `description`, `date` and `isDietMeals` are nullable
      columns; `None` is SQL NULL. */
  datatype MealRow = MealRow(
    id: string,
    userId: string,
    name: string,
    description: Option<string>,
    date: Option<string>,
    isDietMeals: Option<bool>)

  /** The fields of a create or update body once `zod` accepted it. */
  datatype MealInput = MealInput(name: string, description: string, date: string, isDietMeals: bool)

  /** A knex `where` object over `meals`: `userId` always, `id` and
      `isDietMeals` when present. */
  datatype Cond = Cond(userId: string, id: Option<string>, isDietMeals: Option<bool>)

  /** SQL semantics of the `where` object: every named column equals its
      value (a NULL flag equals neither `true` nor `false`). */
  predicate Holds(c: Cond, m: MealRow) {
    && m.userId == c.userId
    && (c.id.Some? ==> m.id == c.id.value)
    && (c.isDietMeals.Some? ==> m.isDietMeals == Some(c.isDietMeals.value))
  }

  /** `{ userId }` */
  function OwnedBy(caller: string): Cond { Cond(caller, None, None) }
  /** `{ id, userId }` */
  function ById(caller: string, id: string): Cond { Cond(caller, Some(id), None) }
  /** `{ isDietMeals: flag, userId }` */
  function Flagged(caller: string, flag: bool): Cond { Cond(caller, None, Some(flag)) }

  // ---------------------------------------------------------------------
  // Request parsing

  /** The caller's id: `schema.parse(request.body)` followed by `user.id`.
      Anything but a string id is a failure before the table is touched. */
  function CallerId(body: Option<Body>): (caller: Option<string>)
    ensures caller.Some? <==>
      body.Some? && Get(body.value, "user").Obj? && Get(Get(body.value, "user").fields, "id").Str?
    ensures caller.Some? ==> Get(Get(body.value, "user").fields, "id") == Str(caller.value)
  {
    if body.None? then None
    else
      var user := Get(body.value, "user");
      if user.Obj? then AsString(Get(user.fields, "id")) else None
  }

  /** `createMealsSchema.parse` / `schemaBody.parse` of the create and update
      handlers: three strings and a boolean, or a parse failure. */
  function ParseMealInput(body: Option<Body>): (input: Option<MealInput>)
    ensures input.Some? <==>
      && body.Some?
      && Get(body.value, "name").Str?
      && Get(body.value, "description").Str?
      && Get(body.value, "date").Str?
      && Get(body.value, "isDietMeals").Bool?
    ensures input.Some? ==>
      && Get(body.value, "name") == Str(input.value.name)
      && Get(body.value, "description") == Str(input.value.description)
      && Get(body.value, "date") == Str(input.value.date)
      && Get(body.value, "isDietMeals") == Bool(input.value.isDietMeals)
  {
    if body.None? then None
    else
      var b := body.value;
      match (AsString(Get(b, "name")), AsString(Get(b, "description")),
             AsString(Get(b, "date")), AsBool(Get(b, "isDietMeals")))
      case (Some(n), Some(d), Some(t), Some(f)) => Some(MealInput(n, d, t, f))
      case _ => None
  }

  // ---------------------------------------------------------------------
  // Queries

  /** `knex('meals').where(c).select()`: the rows satisfying `c`, in
      storage order. */
  function Where(rows: seq<MealRow>, c: Cond): seq<MealRow> {
    if rows == [] then []
    else (if Holds(c, rows[0]) then [rows[0]] else []) + Where(rows[1..], c)
  }

  /** The selection holds each row satisfying `c` as often as the table
      does, and nothing else. */
  lemma {:induction false} WhereSelects(rows: seq<MealRow>, c: Cond)
    ensures forall m :: multiset(Where(rows, c))[m] == (if Holds(c, m) then multiset(rows)[m] else 0)
    ensures forall m :: m in Where(rows, c) <==> m in rows && Holds(c, m)
  {
    if rows != [] {
      WhereSelects(rows[1..], c);
      assert rows == [rows[0]] + rows[1..];
    }
  }

  /** `.count({ count: ['id'] }).first()` after `.where(c)`: counted row by
      row, as the store does; it equals the size of the matching selection. */
  function Count(rows: seq<MealRow>, c: Cond): (n: nat)
    ensures n == |Where(rows, c)|
    ensures n <= |rows|
  {
    if rows == [] then 0
    else (if Holds(c, rows[0]) then 1 else 0) + Count(rows[1..], c)
  }

  /** GET /meals: every row of the caller, and no other. */
  function List(rows: seq<MealRow>, caller: string): (meals: seq<MealRow>)
    ensures forall m :: multiset(meals)[m] == (if m.userId == caller then multiset(rows)[m] else 0)
  {
    WhereSelects(rows, OwnedBy(caller));
    Where(rows, OwnedBy(caller))
  }

  /** GET /meals/:id: the rows with that id owned by the caller; a row with
      that id owned by someone else is not returned (empty, not an error). */
  function GetById(rows: seq<MealRow>, caller: string, id: string): (meals: seq<MealRow>)
    ensures forall m ::
      multiset(meals)[m] == (if m.id == id && m.userId == caller then multiset(rows)[m] else 0)
  {
    WhereSelects(rows, ById(caller, id));
    Where(rows, ById(caller, id))
  }

  /** GET /meals/summary */
  function CountMeals(rows: seq<MealRow>, caller: string): (n: nat)
    ensures n == |List(rows, caller)|
  {
    Count(rows, OwnedBy(caller))
  }

  /** GET /meals/summary/diet */
  function CountDiet(rows: seq<MealRow>, caller: string): (n: nat)
    ensures n == |Where(rows, Flagged(caller, true))|
  {
    Count(rows, Flagged(caller, true))
  }

  /** GET /meals/summary/not-diet */
  function CountNotDiet(rows: seq<MealRow>, caller: string): (n: nat)
    ensures n == |Where(rows, Flagged(caller, false))|
  {
    Count(rows, Flagged(caller, false))
  }

  /** Every row of the caller carries a non-NULL diet flag. */
  ghost predicate FlagsSet(rows: seq<MealRow>, caller: string) {
    forall m :: m in rows && m.userId == caller ==> m.isDietMeals.Some?
  }

  /** Counted row by row: the caller's rows flagged true, flagged false,
      and with a NULL flag make up all the caller's rows. */
  lemma {:induction false} FlagCountsAddUp(rows: seq<MealRow>, caller: string)
    ensures Count(rows, Flagged(caller, true)) + Count(rows, Flagged(caller, false))
            + |NullFlagged(rows, caller)| == Count(rows, OwnedBy(caller))
  {
    if rows != [] {
      FlagCountsAddUp(rows[1..], caller);
      var m := rows[0];
      assert Count(rows, Flagged(caller, true)) ==
        (if Holds(Flagged(caller, true), m) then 1 else 0) + Count(rows[1..], Flagged(caller, true));
      assert Count(rows, Flagged(caller, false)) ==
        (if Holds(Flagged(caller, false), m) then 1 else 0) + Count(rows[1..], Flagged(caller, false));
      assert Count(rows, OwnedBy(caller)) ==
        (if Holds(OwnedBy(caller), m) then 1 else 0) + Count(rows[1..], OwnedBy(caller));
      assert |NullFlagged(rows, caller)| ==
        (if m.userId == caller && m.isDietMeals.None? then 1 else 0) + |NullFlagged(rows[1..], caller)|;
      if m.userId == caller && m.isDietMeals.Some? {
        if m.isDietMeals.value {
          assert Holds(Flagged(caller, true), m) && !Holds(Flagged(caller, false), m);
        } else {
          assert Holds(Flagged(caller, false), m) && !Holds(Flagged(caller, true), m);
        }
      }
    }
  }

  /** The caller's rows whose diet flag is NULL. */
  function NullFlagged(rows: seq<MealRow>, caller: string): seq<MealRow> {
    if rows == [] then []
    else
      (if rows[0].userId == caller && rows[0].isDietMeals.None? then [rows[0]] else [])
      + NullFlagged(rows[1..], caller)
  }

  /** With every flag set, no caller row is NULL-flagged. */
  lemma {:induction false} NoNullFlagged(rows: seq<MealRow>, caller: string)
    requires FlagsSet(rows, caller)
    ensures NullFlagged(rows, caller) == []
  {
    if rows != [] {
      assert rows[0] in rows;
      assert forall m :: m in rows[1..] ==> m in rows;
      NoNullFlagged(rows[1..], caller);
    }
  }

  /** The diet and not-diet counts never exceed the total, and split it
      exactly when none of the caller's rows has a NULL flag. */
  lemma CountsSplit(rows: seq<MealRow>, caller: string)
    ensures CountDiet(rows, caller) + CountNotDiet(rows, caller) <= CountMeals(rows, caller)
    ensures FlagsSet(rows, caller) ==>
      CountDiet(rows, caller) + CountNotDiet(rows, caller) == CountMeals(rows, caller)
  {
    FlagCountsAddUp(rows, caller);
    if FlagsSet(rows, caller) {
      NoNullFlagged(rows, caller);
    }
  }

  /** Number of rows of `group` whose `date` is `d`. */
  function CountOnDate(group: seq<MealRow>, d: Option<string>): nat {
    if group == [] then 0
    else (if group[0].date == d then 1 else 0) + CountOnDate(group[1..], d)
  }

  /** A date that occurs in a group of rows is the date of one of them. */
  lemma {:induction false} CountOnDatePositive(group: seq<MealRow>, d: Option<string>)
    requires CountOnDate(group, d) > 0
    ensures exists k :: 0 <= k < |group| && group[k].date == d
  {
    if group[0].date != d {
      CountOnDatePositive(group[1..], d);
      var k :| 0 <= k < |group[1..]| && group[1..][k].date == d;
      assert group[k + 1].date == d;
    }
  }

  /** The largest per-date count over the dates of `candidates`. */
  function MaxGroup(candidates: seq<MealRow>, group: seq<MealRow>): (n: nat)
    requires candidates != []
    ensures exists k :: 0 <= k < |candidates| && n == CountOnDate(group, candidates[k].date)
    ensures forall k :: 0 <= k < |candidates| ==> CountOnDate(group, candidates[k].date) <= n
  {
    var here := CountOnDate(group, candidates[0].date);
    if |candidates| == 1 then here
    else
      var rest := MaxGroup(candidates[1..], group);
      assert forall k :: 1 <= k < |candidates| ==> candidates[k] == candidates[1..][k - 1];
      if here >= rest then here else rest
  }

  /** Number of the caller's diet meals on date `d`: one group of
      `groupBy('date')`. */
  function GroupCount(rows: seq<MealRow>, caller: string, d: Option<string>): nat {
    CountOnDate(Where(rows, Flagged(caller, true)), d)
  }

  /** GET /meals/best-sequenci-diet: the `count` column of the first group
      after `orderBy('count', 'desc')`. Only the count is selected, so the
      answer does not depend on how equal groups are ordered: it is absent
      exactly when the caller has no diet meal, and otherwise it is the
      count of some date and no date has more. */
  function BestDietCount(rows: seq<MealRow>, caller: string): (best: Option<nat>)
    ensures best.None? <==> forall m :: m in rows ==> !Holds(Flagged(caller, true), m)
    ensures best.Some? ==> best.value >= 1 && exists d :: GroupCount(rows, caller, d) == best.value
    ensures best.Some? ==> forall d :: GroupCount(rows, caller, d) <= best.value
  {
    var diet := Where(rows, Flagged(caller, true));
    WhereSelects(rows, Flagged(caller, true));
    if diet == [] then None
    else
      var n := MaxGroup(diet, diet);
      assert CountOnDate(diet, diet[0].date) >= 1;
      var k :| 0 <= k < |diet| && n == CountOnDate(diet, diet[k].date);
      assert GroupCount(rows, caller, diet[k].date) == n;
      assert forall d :: GroupCount(rows, caller, d) <= n by {
        forall d | CountOnDate(diet, d) > 0 ensures CountOnDate(diet, d) <= n {
          CountOnDatePositive(diet, d);
        }
      }
      Some(n)
  }

  // ---------------------------------------------------------------------
  // Writes, as functions of the table

  /** Primary key: no two rows share an id. */
  ghost predicate UniqueIds(rows: seq<MealRow>) {
    forall i, j :: 0 <= i < j < |rows| ==> rows[i].id != rows[j].id
  }

  function Ids(rows: seq<MealRow>): set<string> {
    set m | m in rows :: m.id
  }

  /** The row `insert` adds. */
  function NewMeal(id: string, caller: string, input: MealInput): MealRow {
    MealRow(id, caller, input.name, Some(input.description), Some(input.date), Some(input.isDietMeals))
  }

  /** `.update({ name, description, date, isDietMeals })` on one row: the
      four columns replaced, `id` and `userId` kept. */
  function Patch(m: MealRow, input: MealInput): MealRow {
    m.(name := input.name, description := Some(input.description),
       date := Some(input.date), isDietMeals := Some(input.isDietMeals))
  }

  /** The table after `where({ userId, id }).update(...)`. */
  function UpdateWhere(rows: seq<MealRow>, caller: string, id: string, input: MealInput): seq<MealRow> {
    if rows == [] then []
    else
      [if Holds(ById(caller, id), rows[0]) then Patch(rows[0], input) else rows[0]]
      + UpdateWhere(rows[1..], caller, id, input)
  }

  /** Update keeps the table's length and row order, patches exactly the
      rows matching `(id, userId = caller)` and leaves every other row as
      it was; in particular no `id` or `userId` changes. */
  lemma {:induction false} UpdatePatches(rows: seq<MealRow>, caller: string, id: string, input: MealInput)
    ensures |UpdateWhere(rows, caller, id, input)| == |rows|
    ensures forall k :: 0 <= k < |rows| ==>
      UpdateWhere(rows, caller, id, input)[k] ==
        (if Holds(ById(caller, id), rows[k]) then Patch(rows[k], input) else rows[k])
    ensures forall k :: 0 <= k < |rows| ==>
      UpdateWhere(rows, caller, id, input)[k].id == rows[k].id &&
      UpdateWhere(rows, caller, id, input)[k].userId == rows[k].userId
  {
    if rows != [] {
      UpdatePatches(rows[1..], caller, id, input);
    }
  }

  /** The table after `where({ userId, id }).delete()`: the rows that do not
      match, in their order. */
  function DeleteWhere(rows: seq<MealRow>, caller: string, id: string): seq<MealRow> {
    if rows == [] then []
    else (if Holds(ById(caller, id), rows[0]) then [] else [rows[0]]) + DeleteWhere(rows[1..], caller, id)
  }

  /** Delete removes every row matching `(id, userId = caller)`, keeps every
      other row as often as it was stored, and adds nothing. */
  lemma {:induction false} DeleteRemoves(rows: seq<MealRow>, caller: string, id: string)
    ensures forall m ::
      multiset(DeleteWhere(rows, caller, id))[m] == (if Holds(ById(caller, id), m) then 0 else multiset(rows)[m])
    ensures forall m :: m in DeleteWhere(rows, caller, id) <==> m in rows && !Holds(ById(caller, id), m)
  {
    if rows != [] {
      DeleteRemoves(rows[1..], caller, id);
      assert rows == [rows[0]] + rows[1..];
    }
  }

  /** DeleteWhere extends row by row, as the delete loop builds it. */
  lemma {:induction false} DeleteWhereSnoc(rows: seq<MealRow>, m: MealRow, caller: string, id: string)
    ensures DeleteWhere(rows + [m], caller, id) ==
      DeleteWhere(rows, caller, id) + (if Holds(ById(caller, id), m) then [] else [m])
  {
    if rows != [] {
      assert (rows + [m])[1..] == rows[1..] + [m];
      DeleteWhereSnoc(rows[1..], m, caller, id);
    }
  }

  /** Where extends row by row, so a row appended by `insert` is selected
      exactly when it satisfies the condition. */
  lemma {:induction false} WhereSnoc(rows: seq<MealRow>, m: MealRow, c: Cond)
    ensures Where(rows + [m], c) == Where(rows, c) + (if Holds(c, m) then [m] else [])
  {
    if rows != [] {
      assert (rows + [m])[1..] == rows[1..] + [m];
      WhereSnoc(rows[1..], m, c);
    }
  }

  // ---------------------------------------------------------------------
  // Properties of the writes

  /** Another user's view of the table is the same before and after the
      caller updates a meal. */
  lemma {:induction false} UpdateIsolation(rows: seq<MealRow>, caller: string, id: string,
                                           input: MealInput, other: string)
    requires other != caller
    ensures List(UpdateWhere(rows, caller, id, input), other) == List(rows, other)
  {
    if rows != [] {
      UpdateIsolation(rows[1..], caller, id, input, other);
      assert UpdateWhere(rows, caller, id, input)[1..] == UpdateWhere(rows[1..], caller, id, input);
    }
  }

  /** Another user's view of the table is the same before and after the
      caller deletes a meal. */
  lemma {:induction false} DeleteIsolation(rows: seq<MealRow>, caller: string, id: string, other: string)
    requires other != caller
    ensures List(DeleteWhere(rows, caller, id), other) == List(rows, other)
  {
    if rows != [] {
      DeleteIsolation(rows[1..], caller, id, other);
      if Holds(ById(caller, id), rows[0]) {
        assert DeleteWhere(rows, caller, id) == DeleteWhere(rows[1..], caller, id);
      } else {
        assert DeleteWhere(rows, caller, id) == [rows[0]] + DeleteWhere(rows[1..], caller, id);
        assert ([rows[0]] + DeleteWhere(rows[1..], caller, id))[1..] == DeleteWhere(rows[1..], caller, id);
      }
    }
  }

  /** Another user's view of the table is the same before and after the
      caller creates a meal. */
  lemma CreateIsolation(rows: seq<MealRow>, row: MealRow, other: string)
    requires row.userId != other
    ensures List(rows + [row], other) == List(rows, other)
  {
    WhereSnoc(rows, row, OwnedBy(other));
  }

  /** Updating an id the caller does not own leaves the table as it was. */
  lemma {:induction false} UpdateNoMatch(rows: seq<MealRow>, caller: string, id: string, input: MealInput)
    requires GetById(rows, caller, id) == []
    ensures UpdateWhere(rows, caller, id, input) == rows
  {
    if rows != [] {
      assert rows[0] !in GetById(rows, caller, id);
      UpdateNoMatch(rows[1..], caller, id, input);
    }
  }

  /** Deleting an id the caller does not own leaves the table as it was. */
  lemma {:induction false} DeleteNoMatch(rows: seq<MealRow>, caller: string, id: string)
    requires GetById(rows, caller, id) == []
    ensures DeleteWhere(rows, caller, id) == rows
  {
    if rows != [] {
      assert rows[0] !in GetById(rows, caller, id);
      DeleteNoMatch(rows[1..], caller, id);
    }
  }

  /** A delete lowers the caller's total by the number of rows it matched. */
  lemma {:induction false} DeleteCount(rows: seq<MealRow>, caller: string, id: string)
    ensures CountMeals(DeleteWhere(rows, caller, id), caller) + |GetById(rows, caller, id)|
            == CountMeals(rows, caller)
  {
    if rows != [] {
      DeleteCount(rows[1..], caller, id);
      var rest := DeleteWhere(rows[1..], caller, id);
      if Holds(ById(caller, id), rows[0]) {
        assert DeleteWhere(rows, caller, id) == rest;
      } else {
        assert DeleteWhere(rows, caller, id) == [rows[0]] + rest;
        assert Count([rows[0]] + rest, OwnedBy(caller)) ==
          (if Holds(OwnedBy(caller), rows[0]) then 1 else 0) + Count(rest, OwnedBy(caller)) by {
          assert ([rows[0]] + rest)[1..] == rest;
        }
      }
      assert Count(rows, OwnedBy(caller)) ==
        (if Holds(OwnedBy(caller), rows[0]) then 1 else 0) + Count(rows[1..], OwnedBy(caller));
    }
  }

  /** Under the primary key, a lookup by id yields at most one row. */
  lemma {:induction false} GetByIdAtMostOne(rows: seq<MealRow>, caller: string, id: string)
    requires UniqueIds(rows)
    ensures |GetById(rows, caller, id)| <= 1
  {
    if rows != [] {
      GetByIdAtMostOne(rows[1..], caller, id);
      if Holds(ById(caller, id), rows[0]) {
        forall m | m in rows[1..] ensures m.id != id {
          var k :| 0 <= k < |rows[1..]| && rows[1..][k] == m;
          assert rows[k + 1] == m;
        }
        NoneSelected(rows[1..], ById(caller, id));
      }
    }
  }

  /** A condition no row satisfies selects nothing. */
  lemma {:induction false} NoneSelected(rows: seq<MealRow>, c: Cond)
    requires forall m :: m in rows ==> !Holds(c, m)
    ensures Where(rows, c) == []
  {
    WhereSelects(rows, c);
  }

  /** Creating a meal and then getting it by its id returns exactly the
      row built from the request's fields. */
  lemma CreateThenGet(rows: seq<MealRow>, id: string, caller: string, input: MealInput)
    requires id !in Ids(rows)
    ensures GetById(rows + [NewMeal(id, caller, input)], caller, id) == [NewMeal(id, caller, input)]
  {
    WhereSnoc(rows, NewMeal(id, caller, input), ById(caller, id));
    forall m | m in rows ensures !Holds(ById(caller, id), m) {
      assert m.id in Ids(rows);
    }
    NoneSelected(rows, ById(caller, id));
  }

  /** Create keeps the primary key. */
  lemma CreateKeepsKey(rows: seq<MealRow>, row: MealRow)
    requires UniqueIds(rows) && row.id !in Ids(rows)
    ensures UniqueIds(rows + [row])
  {
  }

  /** Delete keeps the primary key. */
  lemma {:induction false} DeleteKeepsKey(rows: seq<MealRow>, caller: string, id: string)
    requires UniqueIds(rows)
    ensures UniqueIds(DeleteWhere(rows, caller, id))
  {
    if rows != [] {
      DeleteKeepsKey(rows[1..], caller, id);
      DeleteRemoves(rows[1..], caller, id);
      var rest := DeleteWhere(rows[1..], caller, id);
      if !Holds(ById(caller, id), rows[0]) {
        var s := [rows[0]] + rest;
        assert DeleteWhere(rows, caller, id) == s;
        forall i, j | 0 <= i < j < |s| ensures s[i].id != s[j].id {
          if i == 0 {
            assert s[j] in rows[1..];
            var k :| 0 <= k < |rows[1..]| && rows[1..][k] == s[j];
            assert rows[k + 1] == s[j];
          } else {
            assert s[i] == rest[i - 1] && s[j] == rest[j - 1];
          }
        }
      }
    }
  }

  /** Create, update and delete keep every caller row's diet flag non-NULL,
      so the counts keep splitting the total. */
  lemma {:induction false} FlagsKept(rows: seq<MealRow>, caller: string, id: string, input: MealInput, newId: string)
    requires FlagsSet(rows, caller)
    ensures FlagsSet(rows + [NewMeal(newId, caller, input)], caller)
    ensures FlagsSet(UpdateWhere(rows, caller, id, input), caller)
    ensures FlagsSet(DeleteWhere(rows, caller, id), caller)
  {
    UpdatePatches(rows, caller, id, input);
    DeleteRemoves(rows, caller, id);
    var u := UpdateWhere(rows, caller, id, input);
    forall m | m in u && m.userId == caller ensures m.isDietMeals.Some? {
      var k :| 0 <= k < |u| && u[k] == m;
      assert rows[k] in rows;
    }
  }

  // ---------------------------------------------------------------------
  // The table and its write handlers

  /** Why a write handler stopped before touching the table. */
  datatype Rejection = InvalidBody | NoCaller

  class MealStore {
    var rows: seq<MealRow>

    ghost predicate Valid()
      reads this
    {
      UniqueIds(rows)
    }

    constructor ()
      ensures Valid() && rows == []
    {
      rows := [];
    }

    /** POST /meals. `freshId` is the value `randomUUID()` returned. */
    method Create(body: Option<Body>, freshId: string, reply: Reply) returns (rejected: Option<Rejection>)
      requires Valid()
      requires freshId !in Ids(rows)
      modifies this, reply
      ensures Valid()
      ensures ParseMealInput(body).None? ==>
        rejected == Some(InvalidBody) && rows == old(rows) && unchanged(reply)
      ensures ParseMealInput(body).Some? && CallerId(body).None? ==>
        rejected == Some(NoCaller) && rows == old(rows) && unchanged(reply)
      ensures ParseMealInput(body).Some? && CallerId(body).Some? ==>
        && rejected == None
        && rows == old(rows) + [NewMeal(freshId, CallerId(body).value, ParseMealInput(body).value)]
        && reply.statusCode == 201
        && reply.sent == old(reply.sent) + [Sent(201, NoContent)]
    {
      var input := ParseMealInput(body);
      if input.None? {
        return Some(InvalidBody);
      }
      var caller := CallerId(body);
      if caller.None? {
        return Some(NoCaller);
      }
      var row := NewMeal(freshId, caller.value, input.value);
      CreateKeepsKey(rows, row);
      rows := rows + [row];
      reply.Status(201);
      reply.Send(NoContent);
      rejected := None;
    }

    /** PUT /meals/:id. Replies 204 whether or not a row matched. */
    method Update(body: Option<Body>, id: string, reply: Reply) returns (rejected: Option<Rejection>)
      requires Valid()
      modifies this, reply
      ensures Valid()
      ensures ParseMealInput(body).None? ==>
        rejected == Some(InvalidBody) && rows == old(rows) && unchanged(reply)
      ensures ParseMealInput(body).Some? && CallerId(body).None? ==>
        rejected == Some(NoCaller) && rows == old(rows) && unchanged(reply)
      ensures ParseMealInput(body).Some? && CallerId(body).Some? ==>
        && rejected == None
        && rows == UpdateWhere(old(rows), CallerId(body).value, id, ParseMealInput(body).value)
        && reply.statusCode == 204
        && reply.sent == old(reply.sent) + [Sent(204, NoContent)]
    {
      var input := ParseMealInput(body);
      if input.None? {
        return Some(InvalidBody);
      }
      var caller := CallerId(body);
      if caller.None? {
        return Some(NoCaller);
      }
      var cond := ById(caller.value, id);
      var i := 0;
      while i < |rows|
        invariant 0 <= i <= |rows| == |old(rows)|
        invariant forall k :: 0 <= k < i ==>
          rows[k] == if Holds(cond, old(rows)[k]) then Patch(old(rows)[k], input.value) else old(rows)[k]
        invariant forall k :: i <= k < |rows| ==> rows[k] == old(rows)[k]
        invariant unchanged(reply)
      {
        if Holds(cond, rows[i]) {
          rows := rows[i := Patch(rows[i], input.value)];
        }
        i := i + 1;
      }
      UpdatePatches(old(rows), caller.value, id, input.value);
      assert rows == UpdateWhere(old(rows), caller.value, id, input.value);
      reply.Status(204);
      reply.Send(NoContent);
      rejected := None;
    }

    /** DELETE /meals/:id. Replies 204 whether or not a row matched. */
    method Delete(body: Option<Body>, id: string, reply: Reply) returns (rejected: Option<Rejection>)
      requires Valid()
      modifies this, reply
      ensures Valid()
      ensures CallerId(body).None? ==>
        rejected == Some(NoCaller) && rows == old(rows) && unchanged(reply)
      ensures CallerId(body).Some? ==>
        && rejected == None
        && rows == DeleteWhere(old(rows), CallerId(body).value, id)
        && reply.statusCode == 204
        && reply.sent == old(reply.sent) + [Sent(204, NoContent)]
    {
      var caller := CallerId(body);
      if caller.None? {
        return Some(NoCaller);
      }
      var cond := ById(caller.value, id);
      var kept := [];
      var i := 0;
      while i < |rows|
        invariant 0 <= i <= |rows| && rows == old(rows)
        invariant kept == DeleteWhere(rows[..i], caller.value, id)
        invariant unchanged(reply)
      {
        assert rows[..i + 1] == rows[..i] + [rows[i]];
        DeleteWhereSnoc(rows[..i], rows[i], caller.value, id);
        if !Holds(cond, rows[i]) {
          kept := kept + [rows[i]];
        }
        i := i + 1;
      }
      assert rows[..i] == rows;
      DeleteKeepsKey(rows, caller.value, id);
      rows := kept;
      reply.Status(204);
      reply.Send(NoContent);
      rejected := None;
    }
  }
}
