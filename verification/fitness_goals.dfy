/**
 The fitness-goals screen: the form it edits, the workout-type toggle, how a
 goals row from the server becomes form text, and the request body it sends
 on save.
 */
module FitnessGoalsScreen {
  import opened Js
  import opened Text
  import opened Schema
  import UserGoalsRoute

  datatype GoalsForm = GoalsForm(
    currentWeight: string,
    targetWeight: string,
    targetCalories: string,
    weeklyWorkouts: string,
    workoutTypes: seq<string>)

  const DefaultCalories := "2000"
  const DefaultWeeklyWorkouts := "4"

  /** The form before anything is loaded. */
  const InitialForm := GoalsForm("", "", DefaultCalories, DefaultWeeklyWorkouts, [])

  /** `types.filter(t => t !== id)`. */
  function Without(types: seq<string>, id: string): (r: seq<string>)
    ensures id !in r
    ensures multiset(r) == multiset(types)[id := 0]
  {
    if |types| == 0 then []
    else
      var rest := Without(types[1..], id);
      assert types == [types[0]] + types[1..];
      if types[0] == id then rest else [types[0]] + rest
  }

  /** Filtering works piece by piece, so it keeps the order of what it keeps. */
  lemma {:induction false} WithoutDistributes(a: seq<string>, b: seq<string>, id: string)
    ensures Without(a + b, id) == Without(a, id) + Without(b, id)
    decreases |a|
  {
    if |a| > 0 {
      assert (a + b)[1..] == a[1..] + b;
      WithoutDistributes(a[1..], b, id);
    } else {
      assert a + b == b;
    }
  }

  /** Filtering out an absent id changes nothing. */
  lemma {:induction false} WithoutAbsent(types: seq<string>, id: string)
    requires id !in types
    ensures Without(types, id) == types
    decreases |types|
  {
    if |types| > 0 {
      WithoutAbsent(types[1..], id);
      assert types == [types[0]] + types[1..];
    }
  }

  /** `toggleWorkoutType` on the list: a present id is removed everywhere,
      an absent one is appended at the end. */
  function Toggle(types: seq<string>, id: string): (r: seq<string>)
    ensures id in types ==> id !in r && multiset(r) == multiset(types)[id := 0]
    ensures id !in types ==> r == types + [id]
  {
    if id in types then Without(types, id) else types + [id]
  }

  /** The toggle on the form touches only the workout types. */
  function ToggleWorkoutType(form: GoalsForm, id: string): (form': GoalsForm)
    ensures form'.workoutTypes == Toggle(form.workoutTypes, id)
    ensures form'.(workoutTypes := form.workoutTypes) == form
  {
    form.(workoutTypes := Toggle(form.workoutTypes, id))
  }

  /** Toggling an absent id twice restores the list. */
  lemma ToggleTwiceRestores(types: seq<string>, id: string)
    requires id !in types
    ensures Toggle(Toggle(types, id), id) == types
  {
    WithoutDistributes(types, [id], id);
    WithoutAbsent(types, id);
  }

  /** Toggling a present id twice moves it to the end, once. */
  lemma ToggleTwiceMovesToEnd(types: seq<string>, id: string)
    requires id in types
    ensures Toggle(Toggle(types, id), id) == Without(types, id) + [id]
  {
  }

  /** The form filled from the caller's goals row: the calorie target as
      text (0 shows as "0"), "2000" when the column is NULL, and everything
      else at a fixed value, since the row has no such columns. */
  function FormFromBackend(g: Goals): (f: GoalsForm)
    ensures g.calorieTarget.Some? ==> f.targetCalories == IntToString(g.calorieTarget.value)
    ensures g.calorieTarget.None? ==> f.targetCalories == DefaultCalories
    ensures f.currentWeight == "" && f.targetWeight == ""
    ensures f.weeklyWorkouts == DefaultWeeklyWorkouts && f.workoutTypes == []
  {
    var shown: Field<string> := match g.calorieTarget
      case Some(v) => Given(IntToString(v))
      case None => Missing;
    GoalsForm("", "", OrElse(shown, "", DefaultCalories), DefaultWeeklyWorkouts, [])
  }

  /** `loadGoals`: `backend` is the caller's row when the request succeeded
      with data, `saved` the form kept in storage. The server's answer wins
      and is stored; otherwise a stored form is used; otherwise the form
      stays as it was. */
  function LoadGoals(form: GoalsForm, backend: Option<Goals>, saved: Option<GoalsForm>): (r: (GoalsForm, Option<GoalsForm>))
    ensures backend.Some? ==> r.0 == FormFromBackend(backend.value) && r.1 == Some(r.0)
    ensures backend.None? && saved.Some? ==> r == (saved.value, saved)
    ensures backend.None? && saved.None? ==> r == (form, saved)
  {
    match backend
    case Some(g) => (FormFromBackend(g), Some(FormFromBackend(g)))
    case None =>
      match saved
      case Some(f) => (f, saved)
      case None => (form, saved)
  }

  /** The body `saveGoals` sends. `weight` is `parseFloat(currentWeight)`
      (`NaN` is sent as `null`); a calorie text `parseInt` cannot read is
      `NaN` and is sent as `null` too. */
  function SaveGoalsPayload(form: GoalsForm, weight: Field<real>): (b: UserGoalsRoute.Body)
    ensures b.currentWeight == weight
    ensures ParseInt(form.targetCalories).Some? ==> b.calorieTarget == Given(ParseInt(form.targetCalories).value)
    ensures ParseInt(form.targetCalories).None? ==> b.calorieTarget == Null
    ensures b.proteinTarget == Given(150) && b.carbsTarget == Given(200)
    ensures b.fatsTarget == Given(70) && b.waterTarget == Given(8)
  {
    var calories := match ParseInt(form.targetCalories)
      case Some(v) => Given(v)
      case None => Null;
    UserGoalsRoute.Body(weight, calories, Given(150), Given(200), Given(70), Given(8))
  }

  /** The stored form after `saveGoals`: written only once the server
      accepted the goals. */
  function StoredAfterSave(form: GoalsForm, saved: Option<GoalsForm>, serverOk: bool): (s: Option<GoalsForm>)
    ensures serverOk ==> s == Some(form)
    ensures !serverOk ==> s == saved
  {
    if serverOk then Some(form) else saved
  }

  /** Loading the caller's row and saving the form straight away stores the
      same calorie target and the four fixed macro targets. */
  lemma LoadThenSaveKeepsCalories(db: Db, id: UserId, n: int, weight: Field<real>)
    requires UserGoalsRoute.Get(db, id).Some? && UserGoalsRoute.Get(db, id).value.calorieTarget == Some(n)
    requires UserGoalsRoute.Post(db, id, SaveGoalsPayload(FormFromBackend(UserGoalsRoute.Get(db, id).value), weight)).response.Ok?
    ensures var b := SaveGoalsPayload(FormFromBackend(UserGoalsRoute.Get(db, id).value), weight);
      var g := UserGoalsRoute.Get(UserGoalsRoute.Post(db, id, b).db, id).value;
      && g.calorieTarget == Some(n)
      && g.proteinTarget == Some(150) && g.carbsTarget == Some(200)
      && g.fatsTarget == Some(70) && g.waterTarget == Some(8)
  {
    ParseIntOfIntToString(n);
  }

  /** An empty calorie field is saved as NULL, and the next load shows the
      default again. */
  lemma EmptyCaloriesReloadAsDefault(db: Db, id: UserId, form: GoalsForm, weight: Field<real>)
    requires form.targetCalories == ""
    requires UserGoalsRoute.Post(db, id, SaveGoalsPayload(form, weight)).response.Ok?
    ensures var r := UserGoalsRoute.Post(db, id, SaveGoalsPayload(form, weight));
      FormFromBackend(UserGoalsRoute.Get(r.db, id).value).targetCalories == DefaultCalories
  {
    assert ParseInt("") == None;
  }
}
