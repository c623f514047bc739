/**
 `POST /api/v1/nutrition/water`: records one water entry, taking `amount`
 unless it is `null` or absent, and `count` otherwise.
 */
module NutritionWaterRoute {
  import opened Js
  import opened Schema
  import opened Http

  datatype Body = Body(count: Field<int>, amount: Field<int>, timestamp: Field<string>)

  /** `amount ?? count`. */
  function WaterAmount(b: Body): (f: Field<int>)
    ensures b.amount.Given? ==> f == b.amount
    ensures !b.amount.Given? ==> f == b.count
  {
    Coalesce(b.amount, b.count)
  }

  /** The handler. Only an `undefined` selection is refused; a `null` one
      reaches the insert and violates NOT NULL, and an unparseable timestamp
      is refused by the insert too. */
  function Post(db: Db, id: UserId, b: Body, parse: string -> Option<Instant>, now: Instant): (r: Reply<WaterLog>)
    ensures (r.response.Error? && r.response.status == BadRequest)
        <==> !b.amount.Given? && b.count.Missing?
    ensures r.response.Ok? <==>
      (b.amount.Given? || b.count.Given?) && RequestTime(b.timestamp, parse, now).Some?
      && HasUser(db, id) && FitsInteger(WaterAmount(b).value)
    ensures r.response.Ok? ==> r.response.data.userId == id
    ensures r.response.Ok? && b.amount.Given? ==> r.response.data.amount == b.amount.value
    ensures r.response.Ok? && !b.amount.Given? ==> r.response.data.amount == b.count.value
    ensures r.response.Ok? ==> Some(r.response.data.timestamp) == RequestTime(b.timestamp, parse, now)
    ensures r.response.Ok? ==> r.db == db.(waterLogs := db.waterLogs + [r.response.data])
    ensures r.response.Error? ==> r.db == db
    ensures Valid(db) ==> Valid(r.db)
  {
    var chosen := WaterAmount(b);
    if chosen.Missing? then
      Reply(Error(BadRequest, "amount or count is required"), db)
    else if chosen.Null? || RequestTime(b.timestamp, parse, now).None? || !HasUser(db, id) || !FitsInteger(chosen.value) then
      Failed(db, "Failed to log water")
    else
      var w := WaterLog(id, chosen.value, RequestTime(b.timestamp, parse, now).value);
      Reply(Ok("Water count updated successfully", w), db.(waterLogs := db.waterLogs + [w]))
  }

  /** An `amount` of 0 wins over any `count`. */
  lemma ZeroAmountWins(db: Db, id: UserId, b: Body, parse: string -> Option<Instant>, now: Instant)
    requires b.amount == Given(0) && HasUser(db, id) && RequestTime(b.timestamp, parse, now).Some?
    ensures Post(db, id, b, parse, now).response.Ok?
    ensures Post(db, id, b, parse, now).response.data.amount == 0
  {
  }
}
