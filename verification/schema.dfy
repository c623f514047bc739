/**
 The relational schema: one datatype per table row, the database as one
 sequence of rows per table, and the constraints the schema declares. A
 lookup (`findFirst`, LIMIT 1 without ORDER BY) returns a matching row; every
 lookup here is on a unique key, so at most one row matches and the scan
 order the model uses is immaterial.
 NOT NULL is carried by the column types; UNIQUE and the foreign keys to
 `users.id` form the invariant `Valid`; the 4-byte range of `integer` columns
 is checked on each row a statement writes (`FitsInteger`), since a row out
 of range is refused and never stored.
 */
module Schema {
  import opened Js

  /** A user's uuid, abstracted to a number. */
  type UserId = nat

  /** A point in time in milliseconds since the epoch. */
  type Instant = int

  /** `raw ? new Date(raw) : new Date()` on a date string from a request
      body: a truthy string is parsed (`parse` stands for the `Date`
      constructor, `None` for an Invalid Date, which the insert refuses),
      anything falsy gives the current instant. */
  function RequestTime(raw: Field<string>, parse: string -> Option<Instant>, now: Instant): (t: Option<Instant>)
    ensures Truthy(raw, "") ==> t == parse(raw.value)
    ensures !Truthy(raw, "") ==> t == Some(now)
  {
    if Truthy(raw, "") then parse(raw.value) else Some(now)
  }

  /** The range of a PostgreSQL `integer` column. */
  const IntegerMin: int := -0x8000_0000
  const IntegerMax: int := 0x7FFF_FFFF

  predicate FitsInteger(v: int) {
    IntegerMin <= v <= IntegerMax
  }

  predicate FitsNullableInteger(v: Option<int>) {
    v.None? || FitsInteger(v.value)
  }

  /** Column defaults of `users`. */
  const DefaultThemeMode: string := "dark"
  const DefaultNotificationsEnabled: int := 1

  datatype User = User(
    id: UserId,
    email: string,
    name: Option<string>,
    imageUrl: Option<string>,
    themeMode: Option<string>,
    notificationsEnabled: Option<int>)

  /** The row an insert into `users` creates when it names only these columns. */
  function NewUser(id: UserId, email: string, name: Option<string>, imageUrl: Option<string>): (u: User)
    ensures u.id == id && u.email == email && u.name == name && u.imageUrl == imageUrl
    ensures u.themeMode == Some("dark") && u.notificationsEnabled == Some(1)
  {
    User(id, email, name, imageUrl, Some(DefaultThemeMode), Some(DefaultNotificationsEnabled))
  }

  datatype Profile = Profile(
    userId: UserId,
    weight: Option<real>,
    height: Option<real>,
    age: Option<int>,
    gender: Option<string>,
    activityLevel: Option<string>)

  datatype Goals = Goals(
    userId: UserId,
    calorieTarget: Option<int>,
    proteinTarget: Option<int>,
    carbsTarget: Option<int>,
    fatsTarget: Option<int>,
    waterTarget: Option<int>)

  predicate GoalsFit(g: Goals) {
    && FitsNullableInteger(g.calorieTarget)
    && FitsNullableInteger(g.proteinTarget)
    && FitsNullableInteger(g.carbsTarget)
    && FitsNullableInteger(g.fatsTarget)
    && FitsNullableInteger(g.waterTarget)
  }

  datatype FoodLog = FoodLog(
    userId: UserId,
    foodName: string,
    calories: int,
    protein: Option<int>,
    carbs: Option<int>,
    fats: Option<int>,
    timestamp: Instant)

  predicate FoodLogFits(f: FoodLog) {
    FitsInteger(f.calories) && FitsNullableInteger(f.protein)
    && FitsNullableInteger(f.carbs) && FitsNullableInteger(f.fats)
  }

  datatype WaterLog = WaterLog(userId: UserId, amount: int, timestamp: Instant)

  datatype WorkoutLog = WorkoutLog(
    userId: UserId,
    workoutName: string,
    duration: Option<int>,
    caloriesBurned: Option<int>,
    timestamp: Instant)

  predicate WorkoutLogFits(w: WorkoutLog) {
    FitsNullableInteger(w.duration) && FitsNullableInteger(w.caloriesBurned)
  }

  datatype ProgressPhoto = ProgressPhoto(
    userId: UserId,
    imageUrl: string,
    caption: Option<string>,
    timestamp: Instant)

  datatype Db = Db(
    users: seq<User>,
    userProfiles: seq<Profile>,
    userGoals: seq<Goals>,
    foodLogs: seq<FoodLog>,
    waterLogs: seq<WaterLog>,
    workoutLogs: seq<WorkoutLog>,
    progressPhotos: seq<ProgressPhoto>)

  const EmptyDb := Db([], [], [], [], [], [], [])

  /** `findFirst`: a row that satisfies `p`, found by a scan. The scan order
      matters only when several rows match, which the unique keys the
      lookups use rule out. */
  function FirstWhere<T>(rows: seq<T>, p: T -> bool): (r: Option<nat>)
    ensures r.Some? ==> r.value < |rows| && p(rows[r.value])
    ensures r.Some? ==> forall k :: 0 <= k < r.value ==> !p(rows[k])
    ensures r.None? ==> forall k :: 0 <= k < |rows| ==> !p(rows[k])
  {
    if |rows| == 0 then None
    else if p(rows[0]) then Some(0)
    else match FirstWhere(rows[1..], p)
      case None => None
      case Some(i) => Some(i + 1)
  }

  /** The first match is at `i` when `i` matches and nothing before it does. */
  lemma {:induction false} FirstWhereIs<T>(rows: seq<T>, p: T -> bool, i: nat)
    requires i < |rows| && p(rows[i])
    requires forall k :: 0 <= k < i ==> !p(rows[k])
    ensures FirstWhere(rows, p) == Some(i)
    decreases i
  {
    if i > 0 {
      FirstWhereIs(rows[1..], p, i - 1);
    }
  }

  function UserIndex(users: seq<User>, id: UserId): Option<nat> {
    FirstWhere(users, (u: User) => u.id == id)
  }

  function EmailIndex(users: seq<User>, email: string): Option<nat> {
    FirstWhere(users, (u: User) => u.email == email)
  }

  function ProfileIndex(profiles: seq<Profile>, id: UserId): Option<nat> {
    FirstWhere(profiles, (p: Profile) => p.userId == id)
  }

  function GoalsIndex(goals: seq<Goals>, id: UserId): Option<nat> {
    FirstWhere(goals, (g: Goals) => g.userId == id)
  }

  lemma UserIndexIs(users: seq<User>, id: UserId, i: nat)
    requires i < |users| && users[i].id == id
    requires forall k :: 0 <= k < i ==> users[k].id != id
    ensures UserIndex(users, id) == Some(i)
  {
    FirstWhereIs(users, (u: User) => u.id == id, i);
  }

  lemma EmailIndexIs(users: seq<User>, email: string, i: nat)
    requires i < |users| && users[i].email == email
    requires forall k :: 0 <= k < i ==> users[k].email != email
    ensures EmailIndex(users, email) == Some(i)
  {
    FirstWhereIs(users, (u: User) => u.email == email, i);
  }

  lemma ProfileIndexIs(profiles: seq<Profile>, id: UserId, i: nat)
    requires i < |profiles| && profiles[i].userId == id
    requires forall k :: 0 <= k < i ==> profiles[k].userId != id
    ensures ProfileIndex(profiles, id) == Some(i)
  {
    FirstWhereIs(profiles, (p: Profile) => p.userId == id, i);
  }

  lemma GoalsIndexIs(goals: seq<Goals>, id: UserId, i: nat)
    requires i < |goals| && goals[i].userId == id
    requires forall k :: 0 <= k < i ==> goals[k].userId != id
    ensures GoalsIndex(goals, id) == Some(i)
  {
    FirstWhereIs(goals, (g: Goals) => g.userId == id, i);
  }

  /** Whether `id` may be referenced by a foreign key to `users.id`. */
  predicate HasUser(db: Db, id: UserId) {
    UserIndex(db.users, id).Some?
  }

  ghost predicate IsUser(users: seq<User>, id: UserId) {
    exists i :: 0 <= i < |users| && users[i].id == id
  }

  lemma HasUserMeansIsUser(db: Db, id: UserId)
    ensures HasUser(db, id) <==> IsUser(db.users, id)
  {
  }

  ghost predicate UniqueUserIds(users: seq<User>) {
    forall i, j :: 0 <= i < j < |users| ==> users[i].id != users[j].id
  }

  ghost predicate UniqueEmails(users: seq<User>) {
    forall i, j :: 0 <= i < j < |users| ==> users[i].email != users[j].email
  }

  ghost predicate UniqueProfileOwners(profiles: seq<Profile>) {
    forall i, j :: 0 <= i < j < |profiles| ==> profiles[i].userId != profiles[j].userId
  }

  ghost predicate UniqueGoalsOwners(goals: seq<Goals>) {
    forall i, j :: 0 <= i < j < |goals| ==> goals[i].userId != goals[j].userId
  }

  /** Every `userId` column references an existing user. */
  ghost predicate ForeignKeysHold(db: Db) {
    && (forall k :: 0 <= k < |db.userProfiles| ==> IsUser(db.users, db.userProfiles[k].userId))
    && (forall k :: 0 <= k < |db.userGoals| ==> IsUser(db.users, db.userGoals[k].userId))
    && (forall k :: 0 <= k < |db.foodLogs| ==> IsUser(db.users, db.foodLogs[k].userId))
    && (forall k :: 0 <= k < |db.waterLogs| ==> IsUser(db.users, db.waterLogs[k].userId))
    && (forall k :: 0 <= k < |db.workoutLogs| ==> IsUser(db.users, db.workoutLogs[k].userId))
    && (forall k :: 0 <= k < |db.progressPhotos| ==> IsUser(db.users, db.progressPhotos[k].userId))
  }

  /** The uniqueness and foreign-key constraints the schema declares, as a
      database invariant. */
  ghost predicate Valid(db: Db) {
    && UniqueUserIds(db.users)
    && UniqueEmails(db.users)
    && UniqueProfileOwners(db.userProfiles)
    && UniqueGoalsOwners(db.userGoals)
    && ForeignKeysHold(db)
  }

  lemma EmptyDbValid()
    ensures Valid(EmptyDb)
  {
  }

  /** The users table keeps its ids row for row, so every foreign key that
      held before still holds. */
  lemma SameIdsKeepUsers(users: seq<User>, users': seq<User>, id: UserId)
    requires |users'| == |users|
    requires forall i :: 0 <= i < |users| ==> users'[i].id == users[i].id
    requires IsUser(users, id)
    ensures IsUser(users', id)
  {
    var i :| 0 <= i < |users| && users[i].id == id;
    assert users'[i].id == id;
  }

  /** Appending a user keeps every existing user. */
  lemma AppendKeepsUsers(users: seq<User>, u: User, id: UserId)
    requires IsUser(users, id)
    ensures IsUser(users + [u], id)
  {
    var i :| 0 <= i < |users| && users[i].id == id;
    assert (users + [u])[i].id == id;
  }
}
