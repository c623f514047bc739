/**
 `POST /api/v1/auth/register`: creates a user for a new e-mail address. The
 handler looks the address up first, so the unique e-mail constraint is
 never what refuses a duplicate; the only database error left is a clash of
 the generated id.
 */
module AuthRegisterRoute {
  import opened Js
  import opened Schema
  import opened Http
  import opened Text

  datatype Body = Body(email: Field<string>, name: Field<string>)

  /** `name || email.split('@')[0]`. */
  function DisplayName(email: string, name: Field<string>): (n: string)
    ensures Truthy(name, "") ==> n == name.value
    ensures !Truthy(name, "") ==> n <= email && '@' !in n
    ensures !Truthy(name, "") && |n| < |email| ==> email[|n|] == '@'
  {
    OrElse(name, "", BeforeFirst(email, '@'))
  }

  /** The row the insert creates; `newId` is the generated id. */
  function Registered(newId: UserId, email: string, name: Field<string>): (u: User)
    ensures u.id == newId && u.email == email && u.name == Some(DisplayName(email, name))
    ensures u.imageUrl == None && u.themeMode == Some(DefaultThemeMode)
    ensures u.notificationsEnabled == Some(DefaultNotificationsEnabled)
  {
    NewUser(newId, email, Some(DisplayName(email, name)), None)
  }

  /** The handler, given the id the database would generate. */
  function Post(db: Db, b: Body, newId: UserId): (r: Reply<User>)
    ensures (r.response.Error? && r.response.status == BadRequest) <==>
      !Truthy(b.email, "") || EmailIndex(db.users, b.email.value).Some?
    ensures !Truthy(b.email, "") ==> r.response == Error(BadRequest, "Email is required")
    ensures Truthy(b.email, "") && EmailIndex(db.users, b.email.value).Some? ==>
      r.response == Error(BadRequest, "User already exists")
    ensures r.response.Ok? <==>
      Truthy(b.email, "") && EmailIndex(db.users, b.email.value).None? && !HasUser(db, newId)
    ensures r.response.Ok? ==> r.response == Ok("User registered successfully", Registered(newId, b.email.value, b.name))
    ensures r.response.Ok? ==> r.db == db.(users := db.users + [r.response.data])
    ensures r.response.Error? ==> r.db == db
    ensures r.response.Error? && r.response.status != BadRequest ==> r.response == Error(ServerError, "Failed to register")
    ensures Valid(db) ==> Valid(r.db)
  {
    if !Truthy(b.email, "") then
      Reply(Error(BadRequest, "Email is required"), db)
    else if EmailIndex(db.users, b.email.value).Some? then
      Reply(Error(BadRequest, "User already exists"), db)
    else if HasUser(db, newId) then
      Failed(db, "Failed to register")
    else
      var u := Registered(newId, b.email.value, b.name);
      InsertKeepsValid(db, u);
      Reply(Ok("User registered successfully", u), db.(users := db.users + [u]))
  }

  /** A user whose id and e-mail are both new keeps the database valid. */
  lemma InsertKeepsValid(db: Db, u: User)
    requires !HasUser(db, u.id) && EmailIndex(db.users, u.email).None?
    ensures Valid(db) ==> Valid(db.(users := db.users + [u]))
  {
    HasUserMeansIsUser(db, u.id);
    if Valid(db) {
      forall x | IsUser(db.users, x)
        ensures IsUser(db.users + [u], x)
      {
        AppendKeepsUsers(db.users, u, x);
      }
    }
  }

  /** Registering adds exactly one user, and the e-mail then belongs to
      exactly one user. */
  lemma RegisteredEmailIsUnique(db: Db, b: Body, newId: UserId)
    requires Post(db, b, newId).response.Ok?
    ensures var users := Post(db, b, newId).db.users;
      |users| == |db.users| + 1 &&
      forall k :: 0 <= k < |users| ==> (users[k].email == b.email.value <==> k == |db.users|)
  {
  }
}
