/**
 `POST /api/v1/nutrition/log`: records one food item of the caller. The name
 must be truthy and the calories present; the macros fall back to 0.
 */
module NutritionLogRoute {
  import opened Js
  import opened Schema
  import opened Http

  datatype Body = Body(
    foodName: Field<string>,
    calories: Field<int>,
    protein: Field<int>,
    carbs: Field<int>,
    fats: Field<int>,
    timestamp: Field<string>)

  /** The request check: an empty name is refused, calories 0 is accepted
      (only `undefined` is refused), and `null` calories pass it. */
  predicate Accepted(b: Body) {
    Truthy(b.foodName, "") && !b.calories.Missing?
  }

  /** A macro field as stored: missing, `null` and 0 all become 0. */
  function Macro(f: Field<int>): (v: Option<int>)
    ensures f.Given? ==> v == Some(f.value)
    ensures !f.Given? ==> v == Some(0)
  {
    Some(OrElse(f, 0, 0))
  }

  /** The row the handler inserts at the log time `t`. */
  function NewFood(id: UserId, b: Body, t: Instant): (f: FoodLog)
    requires Accepted(b) && b.calories.Given?
    ensures f.userId == id && f.foodName == b.foodName.value && f.calories == b.calories.value
    ensures f.protein == Macro(b.protein) && f.carbs == Macro(b.carbs) && f.fats == Macro(b.fats)
    ensures f.timestamp == t
  {
    FoodLog(id, b.foodName.value, b.calories.value, Macro(b.protein), Macro(b.carbs), Macro(b.fats), t)
  }

  /** The handler. `null` calories reach the insert and violate NOT NULL, and
      so does an unparseable timestamp. */
  function Post(db: Db, id: UserId, b: Body, parse: string -> Option<Instant>, now: Instant): (r: Reply<FoodLog>)
    ensures (r.response.Error? && r.response.status == BadRequest) <==> !Accepted(b)
    ensures Accepted(b) && RequestTime(b.timestamp, parse, now).None? ==> r == Failed(db, "Failed to log food")
    ensures r.response.Ok? <==>
      Accepted(b) && b.calories.Given? && RequestTime(b.timestamp, parse, now).Some? && HasUser(db, id)
      && FoodLogFits(NewFood(id, b, RequestTime(b.timestamp, parse, now).value))
    ensures r.response.Ok? ==> r.response.data == NewFood(id, b, RequestTime(b.timestamp, parse, now).value)
    ensures r.response.Ok? ==> r.db == db.(foodLogs := db.foodLogs + [r.response.data])
    ensures r.response.Error? ==> r.db == db
    ensures Valid(db) ==> Valid(r.db)
  {
    if !Accepted(b) then
      Reply(Error(BadRequest, "foodName and calories are required"), db)
    else if b.calories.Null? || RequestTime(b.timestamp, parse, now).None? then
      Failed(db, "Failed to log food")
    else
      var f := NewFood(id, b, RequestTime(b.timestamp, parse, now).value);
      if HasUser(db, id) && FoodLogFits(f) then
        Reply(Ok("Food item added to log", f), db.(foodLogs := db.foodLogs + [f]))
      else
        Failed(db, "Failed to log food")
  }

  /** Zero calories are logged like any other number. */
  lemma ZeroCaloriesAccepted(db: Db, id: UserId, b: Body, parse: string -> Option<Instant>, now: Instant)
    requires Truthy(b.foodName, "") && b.calories == Given(0) && RequestTime(b.timestamp, parse, now).Some?
    requires HasUser(db, id) && FitsNullableInteger(Macro(b.protein))
    requires FitsNullableInteger(Macro(b.carbs)) && FitsNullableInteger(Macro(b.fats))
    ensures Post(db, id, b, parse, now).response.Ok?
    ensures Post(db, id, b, parse, now).response.data.calories == 0
  {
  }

  /** `null` calories pass the request validation but the database refuses the row. */
  lemma NullCaloriesFailInDatabase(db: Db, id: UserId, b: Body, parse: string -> Option<Instant>, now: Instant)
    requires Truthy(b.foodName, "") && b.calories.Null?
    ensures Post(db, id, b, parse, now) == Reply(Error(ServerError, "Failed to log food"), db)
  {
  }
}
