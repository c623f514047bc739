/**
 `POST /api/v1/user/goals` (an upsert of the caller's goals row, following
 INSERT ... ON CONFLICT (user_id) DO UPDATE) and `GET /api/v1/user/goals`.
 */
module UserGoalsRoute {
  import opened Js
  import opened Schema
  import opened Http

  datatype Body = Body(
    currentWeight: Field<real>,
    calorieTarget: Field<int>,
    proteinTarget: Field<int>,
    carbsTarget: Field<int>,
    fatsTarget: Field<int>,
    waterTarget: Field<int>)

  /** The five targets written over a goals row (`currentWeight` has no column). */
  function ApplyTargets(g: Goals, b: Body): (g': Goals)
    ensures g'.userId == g.userId
    ensures HoldsTargets(g', b, g)
  {
    g.(calorieTarget := Written(g.calorieTarget, b.calorieTarget),
       proteinTarget := Written(g.proteinTarget, b.proteinTarget),
       carbsTarget := Written(g.carbsTarget, b.carbsTarget),
       fatsTarget := Written(g.fatsTarget, b.fatsTarget),
       waterTarget := Written(g.waterTarget, b.waterTarget))
  }

  /** A goals row with every target at its default, NULL. */
  function BlankGoals(id: UserId): Goals {
    Goals(id, None, None, None, None, None)
  }

  /** The row `g` holds the targets of `b`, written over `before`. */
  ghost predicate HoldsTargets(g: Goals, b: Body, before: Goals) {
    && Holds(g.calorieTarget, b.calorieTarget, before.calorieTarget)
    && Holds(g.proteinTarget, b.proteinTarget, before.proteinTarget)
    && Holds(g.carbsTarget, b.carbsTarget, before.carbsTarget)
    && Holds(g.fatsTarget, b.fatsTarget, before.fatsTarget)
    && Holds(g.waterTarget, b.waterTarget, before.waterTarget)
  }

  /** `GET /api/v1/user/goals`: the caller's row, if there is one. */
  function Get(db: Db, id: UserId): (r: Option<Goals>)
    ensures r.Some? ==> r.value in db.userGoals && r.value.userId == id
    ensures r.None? ==> forall g :: g in db.userGoals ==> g.userId != id
  {
    match GoalsIndex(db.userGoals, id)
    case Some(i) => Some(db.userGoals[i])
    case None => None
  }

  /** The caller's row before the request, or a blank one. */
  function Previous(db: Db, id: UserId): Goals {
    match Get(db, id)
    case Some(g) => g
    case None => BlankGoals(id)
  }

  /** `POST /api/v1/user/goals`: updates the caller's row when there is one,
      inserts one otherwise, and echoes the request body. */
  function Post(db: Db, id: UserId, b: Body): (r: Reply<Body>)
    ensures r.response.Ok? ==> r.response.data == b
    ensures r.response.Ok? <==> (Get(db, id).Some? || HasUser(db, id)) && GoalsFit(ApplyTargets(Previous(db, id), b))
    ensures r.response.Error? ==> r.response.status == ServerError && r.db == db
    ensures r.response.Ok? ==> Get(r.db, id).Some? && HoldsTargets(Get(r.db, id).value, b, Previous(db, id))
    ensures Get(db, id).Some? ==> |r.db.userGoals| == |db.userGoals|
    ensures forall g: Goals :: g.userId != id ==> (g in r.db.userGoals <==> g in db.userGoals)
    ensures r.db.users == db.users && r.db.userProfiles == db.userProfiles
    ensures r.db.foodLogs == db.foodLogs && r.db.waterLogs == db.waterLogs
    ensures r.db.workoutLogs == db.workoutLogs && r.db.progressPhotos == db.progressPhotos
    ensures Valid(db) ==> Valid(r.db)
  {
    var ok := Ok("Fitness goals updated successfully", b);
    var failed := Failed(db, "Failed to update goals");
    match GoalsIndex(db.userGoals, id)
    case Some(i) =>
      var g := ApplyTargets(db.userGoals[i], b);
      if !GoalsFit(g) then failed
      else
        var db' := db.(userGoals := db.userGoals[i := g]);
        UpdateKeepsGoalsOrder(db, id, i, g);
        Reply(ok, db')
    case None =>
      var g := ApplyTargets(BlankGoals(id), b);
      if !HasUser(db, id) || !GoalsFit(g) then failed
      else
        var db' := db.(userGoals := db.userGoals + [g]);
        InsertKeepsGoalsOrder(db, id, g);
        Reply(ok, db')
  }

  lemma UpdateKeepsGoalsOrder(db: Db, id: UserId, i: nat, g: Goals)
    requires GoalsIndex(db.userGoals, id) == Some(i) && g.userId == id
    ensures GoalsIndex(db.userGoals[i := g], id) == Some(i)
    ensures forall x: Goals :: x.userId != id ==> (x in db.userGoals[i := g] <==> x in db.userGoals)
    ensures Valid(db) ==> Valid(db.(userGoals := db.userGoals[i := g]))
  {
    var rows := db.userGoals[i := g];
    GoalsIndexIs(rows, id, i);
    forall x: Goals | x.userId != id
      ensures x in rows <==> x in db.userGoals
    {
      if x in rows {
        var k :| 0 <= k < |rows| && rows[k] == x;
        assert db.userGoals[k] == x;
      }
      if x in db.userGoals {
        var k :| 0 <= k < |db.userGoals| && db.userGoals[k] == x;
        assert rows[k] == x;
      }
    }
    if Valid(db) {
      var db' := db.(userGoals := rows);
      forall k | 0 <= k < |rows|
        ensures IsUser(db'.users, rows[k].userId)
      {
        assert rows[k].userId == db.userGoals[k].userId;
      }
    }
  }

  lemma InsertKeepsGoalsOrder(db: Db, id: UserId, g: Goals)
    requires GoalsIndex(db.userGoals, id).None? && g.userId == id && HasUser(db, id)
    ensures GoalsIndex(db.userGoals + [g], id) == Some(|db.userGoals|)
    ensures Valid(db) ==> Valid(db.(userGoals := db.userGoals + [g]))
  {
    var rows := db.userGoals + [g];
    GoalsIndexIs(rows, id, |db.userGoals|);
  }

  /** Posting the same goals twice leaves what posting them once left. */
  lemma PostIsIdempotent(db: Db, id: UserId, b: Body)
    ensures Post(Post(db, id, b).db, id, b).db == Post(db, id, b).db
  {
    var db1 := Post(db, id, b).db;
    if Post(db, id, b).response.Ok? {
      var i :| GoalsIndex(db1.userGoals, id) == Some(i);
      var g := db1.userGoals[i];
      assert ApplyTargets(g, b) == g;
      assert db1.userGoals[i := g] == db1.userGoals;
      assert Post(db1, id, b).db == db1;
    }
  }

  /** `currentWeight` is accepted but never stored. */
  lemma CurrentWeightIgnored(db: Db, id: UserId, b: Body, w: Field<real>)
    ensures Post(db, id, b.(currentWeight := w)).db == Post(db, id, b).db
  {
    assert ApplyTargets(Previous(db, id), b.(currentWeight := w)) == ApplyTargets(Previous(db, id), b);
  }
}
