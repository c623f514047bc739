/**
 `POST /api/v1/progress/workout-complete`: records one workout of the caller.
 Every field has a fallback, so the only error is the database refusing the
 row.
 */
module WorkoutCompleteRoute {
  import opened Js
  import opened Schema
  import opened Http
  import WorkoutStats

  datatype Body = Body(
    date: Field<string>,
    workoutType: Field<string>,
    workoutName: Field<string>,
    durationMinutes: Field<int>,
    duration: Field<int>,
    caloriesBurned: Field<int>)

  const DefaultWorkoutName := "General Workout"

  /** The row the handler inserts for user `id` at the log time `t`. */
  function NewWorkout(id: UserId, b: Body, t: Instant): (w: WorkoutLog)
    ensures w.userId == id
    ensures w.timestamp == t
    ensures w.workoutName != ""
    ensures Truthy(b.workoutName, "") ==> w.workoutName == b.workoutName.value
    ensures !Truthy(b.workoutName, "") && Truthy(b.workoutType, "") ==> w.workoutName == b.workoutType.value
    ensures !Truthy(b.workoutName, "") && !Truthy(b.workoutType, "") ==> w.workoutName == DefaultWorkoutName
    ensures Truthy(b.duration, 0) ==> w.duration == Some(b.duration.value)
    ensures !Truthy(b.duration, 0) && b.durationMinutes.Given? ==> w.duration == Some(b.durationMinutes.value)
    ensures !Truthy(b.duration, 0) && !b.durationMinutes.Given? ==> w.duration == Some(0)
    ensures b.caloriesBurned.Given? ==> w.caloriesBurned == Some(b.caloriesBurned.value)
    ensures !b.caloriesBurned.Given? ==> w.caloriesBurned == Some(0)
  {
    WorkoutLog(
      id,
      OrElse(b.workoutName, "", OrElse(b.workoutType, "", DefaultWorkoutName)),
      Some(OrElse(b.duration, 0, OrElse(b.durationMinutes, 0, 0))),
      Some(OrElse(b.caloriesBurned, 0, 0)),
      t)
  }

  /** The handler: one insert, which fails only on an unparseable date, a
      foreign key or an integer range violation. */
  function Post(db: Db, id: UserId, b: Body, parse: string -> Option<Instant>, now: Instant): (r: Reply<WorkoutLog>)
    ensures RequestTime(b.date, parse, now).None? ==> r == Failed(db, "Failed to record workout")
    ensures r.response.Ok? <==>
      RequestTime(b.date, parse, now).Some? && HasUser(db, id)
      && WorkoutLogFits(NewWorkout(id, b, RequestTime(b.date, parse, now).value))
    ensures r.response.Ok? ==> r.response.data == NewWorkout(id, b, RequestTime(b.date, parse, now).value)
    ensures r.response.Ok? ==> r.db == db.(workoutLogs := db.workoutLogs + [r.response.data])
    ensures r.response.Error? ==> r.response.status == ServerError && r.db == db
    ensures Valid(db) ==> Valid(r.db)
  {
    match RequestTime(b.date, parse, now)
    case None => Failed(db, "Failed to record workout")
    case Some(t) =>
      var w := NewWorkout(id, b, t);
      if HasUser(db, id) && WorkoutLogFits(w) then
        Reply(Ok("Workout recorded! Keep up the streak.", w), db.(workoutLogs := db.workoutLogs + [w]))
      else
        Failed(db, "Failed to record workout")
  }

  /** A `duration` of 0 is falsy, so `durationMinutes` is stored instead. */
  lemma ZeroDurationFallsThrough(id: UserId, b: Body, t: Instant)
    requires b.duration == Given(0) && b.durationMinutes.Given?
    ensures NewWorkout(id, b, t).duration == Some(b.durationMinutes.value)
  {
  }

  /** A truthy date string is parsed even when it names the epoch: its instant
      0 is stored, not the current time. */
  lemma EpochDateIsKept(db: Db, id: UserId, b: Body, parse: string -> Option<Instant>, now: Instant)
    requires b.date.Given? && b.date.value != "" && parse(b.date.value) == Some(0)
    requires Post(db, id, b, parse, now).response.Ok?
    ensures Post(db, id, b, parse, now).response.data.timestamp == 0
  {
  }

  /** A recorded workout shows in the statistics: one more workout in total,
      and its day among the workout dates. */
  lemma RecordedWorkoutCounts(db: Db, id: UserId, b: Body, parse: string -> Option<Instant>, now: Instant,
                               today: WorkoutStats.Day, dayOfMonth: nat)
    requires 1 <= dayOfMonth <= 31
    requires Post(db, id, b, parse, now).response.Ok?
    ensures var before := WorkoutStats.GetStats(db, id, today, dayOfMonth);
      var after := WorkoutStats.GetStats(Post(db, id, b, parse, now).db, id, today, dayOfMonth);
      && after.totalWorkouts == before.totalWorkouts + 1
      && WorkoutStats.DayOf(RequestTime(b.date, parse, now).value) in after.workoutDates
  {
    var w := NewWorkout(id, b, RequestTime(b.date, parse, now).value);
    WorkoutStats.UserDaysWithWorkout(db, w, id);
  }
}
