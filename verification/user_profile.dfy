/**
 `POST /api/v1/user/profile` (and `PUT`, which delegates to it): two upserts
 in a row without a transaction. The first makes sure the caller's `users` row
 exists (INSERT ... ON CONFLICT (id) DO UPDATE SET name, image_url), the
 second writes the caller's `user_profiles` row (ON CONFLICT (user_id) DO
 UPDATE SET age, height, gender, weight). `GET` reads the user with its
 nested profile.
 */
module UserProfileRoute {
  import opened Js
  import opened Schema
  import opened Http

  datatype Body = Body(
    name: Field<string>,
    email: Field<string>,
    age: Field<int>,
    height: Field<real>,
    gender: Field<string>,
    weight: Field<real>,
    profileImage: Field<string>)

  /** The e-mail a newly created user gets when the body has none. */
  const FallbackEmail := "test@example.com"

  /** `email || 'test@example.com'`. */
  function NewEmail(b: Body): (e: string)
    ensures Truthy(b.email, "") ==> e == b.email.value
    ensures !Truthy(b.email, "") ==> e == FallbackEmail
    ensures e != ""
  {
    OrElse(b.email, "", FallbackEmail)
  }

  /** The user row as seen by `GET`: the row and the profile joined to it. */
  datatype UserWithProfile = UserWithProfile(user: User, profile: Option<Profile>)

  /** `GET /api/v1/user/profile`: the caller's user row with its profile. */
  function Get(db: Db, id: UserId): (r: Option<UserWithProfile>)
    ensures r.Some? <==> HasUser(db, id)
    ensures r.Some? ==> r.value.user in db.users && r.value.user.id == id
    ensures r.Some? && r.value.profile.Some? ==>
      r.value.profile.value in db.userProfiles && r.value.profile.value.userId == id
    ensures r.Some? && r.value.profile.None? ==> forall p :: p in db.userProfiles ==> p.userId != id
  {
    match UserIndex(db.users, id)
    case None => None
    case Some(i) =>
      var profile := match ProfileIndex(db.userProfiles, id)
        case Some(j) => Some(db.userProfiles[j])
        case None => None;
      Some(UserWithProfile(db.users[i], profile))
  }

  /** The conflict branch of the users upsert: only the name and the image
      change. */
  function UpdateUser(u: User, b: Body): (u': User)
    ensures u'.id == u.id && u'.email == u.email
    ensures u'.themeMode == u.themeMode && u'.notificationsEnabled == u.notificationsEnabled
    ensures Holds(u'.name, b.name, u.name) && Holds(u'.imageUrl, b.profileImage, u.imageUrl)
  {
    u.(name := Written(u.name, b.name), imageUrl := Written(u.imageUrl, b.profileImage))
  }

  /** The first statement: the users table after the upsert, or `None` when
      the insert branch violates the unique e-mail constraint. */
  function UpsertUser(users: seq<User>, id: UserId, b: Body): (r: Option<seq<User>>)
    ensures UserIndex(users, id).Some? ==> r.Some?
    ensures UserIndex(users, id).None? ==> (r.None? <==> EmailIndex(users, NewEmail(b)).Some?)
    ensures UserIndex(users, id).Some? ==>
      var i := UserIndex(users, id).value;
      r == Some(users[i := UpdateUser(users[i], b)])
    ensures r.Some? && UserIndex(users, id).None? ==>
      r.value == users + [NewUser(id, NewEmail(b), Nullable(b.name), Nullable(b.profileImage))]
  {
    match UserIndex(users, id)
    case Some(i) => Some(users[i := UpdateUser(users[i], b)])
    case None =>
      if EmailIndex(users, NewEmail(b)).Some? then None
      else Some(users + [NewUser(id, NewEmail(b), Nullable(b.name), Nullable(b.profileImage))])
  }

  /** A profile row with every column at its default, NULL. */
  function BlankProfile(id: UserId): Profile {
    Profile(id, None, None, None, None, None)
  }

  /** The four profile columns the request writes (`activityLevel` is kept). */
  function ApplyProfile(p: Profile, b: Body): (p': Profile)
    ensures p'.userId == p.userId && p'.activityLevel == p.activityLevel
    ensures HoldsProfile(p', b, p)
  {
    p.(age := Written(p.age, b.age), height := Written(p.height, b.height),
       gender := Written(p.gender, b.gender), weight := Written(p.weight, b.weight))
  }

  /** The row `p` holds the fields of `b`, written over `before`. */
  ghost predicate HoldsProfile(p: Profile, b: Body, before: Profile) {
    && Holds(p.age, b.age, before.age)
    && Holds(p.height, b.height, before.height)
    && Holds(p.gender, b.gender, before.gender)
    && Holds(p.weight, b.weight, before.weight)
    && p.activityLevel == before.activityLevel
  }

  /** The caller's profile row before the request, or a blank one. */
  function PreviousProfile(db: Db, id: UserId): Profile {
    match ProfileIndex(db.userProfiles, id)
    case Some(j) => db.userProfiles[j]
    case None => BlankProfile(id)
  }

  /** The second statement, once the caller's user row exists: the profile
      upsert, refused when the age does not fit an `integer` column. */
  function UpsertProfile(db: Db, id: UserId, b: Body): (r: Reply<Body>)
    requires HasUser(db, id)
    ensures r.response.Ok? <==> FitsNullableInteger(ApplyProfile(PreviousProfile(db, id), b).age)
    ensures r.response.Ok? ==> r.response == Ok("Profile updated successfully", b)
    ensures r.response.Error? ==> r == Failed(db, "Failed to update profile")
    ensures r.db.users == db.users && r.db.userGoals == db.userGoals && r.db.foodLogs == db.foodLogs
    ensures r.db.waterLogs == db.waterLogs && r.db.workoutLogs == db.workoutLogs
    ensures r.db.progressPhotos == db.progressPhotos
    ensures r.response.Ok? ==> (ProfileIndex(r.db.userProfiles, id).Some?
      && HoldsProfile(r.db.userProfiles[ProfileIndex(r.db.userProfiles, id).value], b, PreviousProfile(db, id)))
    ensures forall p: Profile :: p.userId != id ==> (p in r.db.userProfiles <==> p in db.userProfiles)
    ensures Valid(db) ==> Valid(r.db)
  {
    var failed := Failed(db, "Failed to update profile");
    match ProfileIndex(db.userProfiles, id)
    case Some(j) =>
      var p := ApplyProfile(db.userProfiles[j], b);
      if !FitsNullableInteger(p.age) then failed
      else
        UpdateKeepsProfiles(db, id, j, p);
        Reply(Ok("Profile updated successfully", b), db.(userProfiles := db.userProfiles[j := p]))
    case None =>
      var p := ApplyProfile(BlankProfile(id), b);
      if !FitsNullableInteger(p.age) then failed
      else
        InsertKeepsProfiles(db, id, p);
        Reply(Ok("Profile updated successfully", b), db.(userProfiles := db.userProfiles + [p]))
  }

  /** The two upserts in a row, without a transaction: a profile row that
      the database refuses fails after the users upsert has been applied. */
  function Post(db: Db, id: UserId, b: Body): (r: Reply<Body>)
    ensures r.response.Ok? ==> r.response.message == "Profile updated successfully" && r.response.data == b
    ensures r.response.Error? ==> r.response == Error(ServerError, "Failed to update profile")
    ensures r.response.Ok? <==>
      UpsertUser(db.users, id, b).Some? && FitsNullableInteger(ApplyProfile(PreviousProfile(db, id), b).age)
    ensures r.response.Error? ==> r.db.userProfiles == db.userProfiles
    ensures UpsertUser(db.users, id, b).None? ==> r.db == db
    ensures UpsertUser(db.users, id, b).Some? ==> r.db.users == UpsertUser(db.users, id, b).value
    ensures r.response.Ok? ==> Get(r.db, id).Some? && Get(r.db, id).value.profile.Some?
    ensures r.response.Ok? ==> HoldsProfile(Get(r.db, id).value.profile.value, b, PreviousProfile(db, id))
    ensures HasUser(db, id) ==> HasUser(r.db, id) && Get(r.db, id).value.user.email == Get(db, id).value.user.email
    ensures r.response.Ok? && !HasUser(db, id) ==> Get(r.db, id).value.user.email == NewEmail(b)
    ensures forall u: User :: u.id != id ==> (u in r.db.users <==> u in db.users)
    ensures forall p: Profile :: p.userId != id ==> (p in r.db.userProfiles <==> p in db.userProfiles)
    ensures r.db.userGoals == db.userGoals && r.db.foodLogs == db.foodLogs && r.db.waterLogs == db.waterLogs
    ensures r.db.workoutLogs == db.workoutLogs && r.db.progressPhotos == db.progressPhotos
    ensures Valid(db) ==> Valid(r.db)
  {
    match UpsertUser(db.users, id, b)
    case None => Failed(db, "Failed to update profile")
    case Some(users) =>
      UpsertUserKeeps(db, id, b);
      UpsertProfile(db.(users := users), id, b)
  }

  /** `PUT /api/v1/user/profile` answers exactly as `POST` does. */
  function Put(db: Db, id: UserId, b: Body): (r: Reply<Body>)
    ensures r == Post(db, id, b)
  {
    Post(db, id, b)
  }

  /** What the users upsert keeps: the caller exists afterwards with the
      e-mail it had (or the new one), other users are untouched, and the
      database constraints still hold. */
  lemma UpsertUserKeeps(db: Db, id: UserId, b: Body)
    requires UpsertUser(db.users, id, b).Some?
    ensures var users := UpsertUser(db.users, id, b).value;
      && HasUser(db.(users := users), id)
      && Get(db.(users := users), id).value.user.email ==
         (if HasUser(db, id) then Get(db, id).value.user.email else NewEmail(b))
      && (forall u: User :: u.id != id ==> (u in users <==> u in db.users))
      && (Valid(db) ==> Valid(db.(users := users)))
  {
    match UserIndex(db.users, id)
    case Some(i) => UpdateUserKeeps(db, id, i, UpdateUser(db.users[i], b));
    case None => InsertUserKeeps(db, NewUser(id, NewEmail(b), Nullable(b.name), Nullable(b.profileImage)));
  }

  /** The conflict branch: the caller's row is rewritten in place with its
      id and e-mail. */
  lemma UpdateUserKeeps(db: Db, id: UserId, i: nat, u: User)
    requires UserIndex(db.users, id) == Some(i)
    requires u.id == id && u.email == db.users[i].email
    ensures var users := db.users[i := u];
      && UserIndex(users, id) == Some(i)
      && (forall x: User :: x.id != id ==> (x in users <==> x in db.users))
      && (Valid(db) ==> Valid(db.(users := users)))
  {
    var users := db.users[i := u];
    UserIndexIs(users, id, i);
    forall x: User | x.id != id
      ensures x in users <==> x in db.users
    {
      if x in users {
        var k :| 0 <= k < |users| && users[k] == x;
        assert db.users[k] == x;
      }
      if x in db.users {
        var k :| 0 <= k < |db.users| && db.users[k] == x;
        assert users[k] == x;
      }
    }
    if Valid(db) {
      forall k | 0 <= k < |users|
        ensures users[k].id == db.users[k].id && users[k].email == db.users[k].email
      {
      }
      SameIdsKeepsForeignKeys(db, users);
    }
  }

  /** The insert branch: a user whose id and e-mail are both new. */
  lemma InsertUserKeeps(db: Db, u: User)
    requires UserIndex(db.users, u.id).None? && EmailIndex(db.users, u.email).None?
    ensures var users := db.users + [u];
      && UserIndex(users, u.id) == Some(|db.users|)
      && (forall x: User :: x.id != u.id ==> (x in users <==> x in db.users))
      && (Valid(db) ==> Valid(db.(users := users)))
  {
    var users := db.users + [u];
    UserIndexIs(users, u.id, |db.users|);
    if Valid(db) {
      AppendKeepsForeignKeys(db, u);
    }
  }

  /** Rewriting users row by row with the same ids keeps every foreign key. */
  lemma SameIdsKeepsForeignKeys(db: Db, users: seq<User>)
    requires ForeignKeysHold(db)
    requires |users| == |db.users|
    requires forall k :: 0 <= k < |users| ==> users[k].id == db.users[k].id
    ensures ForeignKeysHold(db.(users := users))
  {
    forall id | IsUser(db.users, id)
      ensures IsUser(users, id)
    {
      SameIdsKeepUsers(db.users, users, id);
    }
  }

  /** Appending a user keeps every foreign key. */
  lemma AppendKeepsForeignKeys(db: Db, u: User)
    requires ForeignKeysHold(db)
    ensures ForeignKeysHold(db.(users := db.users + [u]))
  {
    forall id | IsUser(db.users, id)
      ensures IsUser(db.users + [u], id)
    {
      AppendKeepsUsers(db.users, u, id);
    }
  }

  lemma UpdateKeepsProfiles(db: Db, id: UserId, j: nat, p: Profile)
    requires ProfileIndex(db.userProfiles, id) == Some(j) && p.userId == id
    ensures ProfileIndex(db.userProfiles[j := p], id) == Some(j)
    ensures forall x: Profile :: x.userId != id ==> (x in db.userProfiles[j := p] <==> x in db.userProfiles)
    ensures Valid(db) ==> Valid(db.(userProfiles := db.userProfiles[j := p]))
  {
    var rows := db.userProfiles[j := p];
    ProfileIndexIs(rows, id, j);
    forall x: Profile | x.userId != id
      ensures x in rows <==> x in db.userProfiles
    {
      if x in rows {
        var k :| 0 <= k < |rows| && rows[k] == x;
        assert db.userProfiles[k] == x;
      }
      if x in db.userProfiles {
        var k :| 0 <= k < |db.userProfiles| && db.userProfiles[k] == x;
        assert rows[k] == x;
      }
    }
    if Valid(db) {
      forall k | 0 <= k < |rows|
        ensures IsUser(db.users, rows[k].userId)
      {
        assert rows[k].userId == db.userProfiles[k].userId;
      }
    }
  }

  lemma InsertKeepsProfiles(db: Db, id: UserId, p: Profile)
    requires ProfileIndex(db.userProfiles, id).None? && p.userId == id && HasUser(db, id)
    ensures ProfileIndex(db.userProfiles + [p], id) == Some(|db.userProfiles|)
    ensures forall x: Profile :: x.userId != id ==> (x in db.userProfiles + [p] <==> x in db.userProfiles)
    ensures Valid(db) ==> Valid(db.(userProfiles := db.userProfiles + [p]))
  {
    ProfileIndexIs(db.userProfiles + [p], id, |db.userProfiles|);
    HasUserMeansIsUser(db, id);
  }

  /** The response echoes an e-mail even when the user already existed and
      kept the e-mail it had. */
  lemma EchoedEmailNotStored(db: Db, id: UserId, b: Body)
    requires HasUser(db, id) && b.email.Given? && b.email.value != Get(db, id).value.user.email
    requires Post(db, id, b).response.Ok?
    ensures Post(db, id, b).response.data.email == b.email
    ensures Get(Post(db, id, b).db, id).value.user.email != b.email.value
  {
  }

  /** Two new users without an e-mail both get the fallback address, so the
      second one violates the unique e-mail constraint. */
  lemma SecondFallbackEmailFails(db: Db, id: UserId, b: Body)
    requires !HasUser(db, id) && !Truthy(b.email, "")
    requires exists k :: 0 <= k < |db.users| && db.users[k].email == FallbackEmail
    ensures Post(db, id, b).response == Error(ServerError, "Failed to update profile")
    ensures Post(db, id, b).db == db
  {
  }
}
