/**
 `POST /api/v1/auth/login`: looks a user up by e-mail. It reads the users
 table and writes nothing, so it is modelled as a function of the database
 that returns only a response.
 */
module AuthLoginRoute {
  import opened Js
  import opened Schema
  import opened Http
  import AuthRegisterRoute

  datatype Body = Body(email: Field<string>)

  function Post(db: Db, b: Body): (r: Response<User>)
    ensures r == Error(BadRequest, "Email is required") <==> !Truthy(b.email, "")
    ensures r == Error(NotFound, "User not found") <==>
      Truthy(b.email, "") && forall u :: u in db.users ==> u.email != b.email.value
    ensures r.Ok? ==> r.message == "Login successful" && r.data in db.users && r.data.email == b.email.value
  {
    if !Truthy(b.email, "") then Error(BadRequest, "Email is required")
    else match EmailIndex(db.users, b.email.value)
      case None => Error(NotFound, "User not found")
      case Some(i) => Ok("Login successful", db.users[i])
  }

  /** Under the unique e-mail constraint, a login finds the one user with
      that address. */
  lemma LoginFindsTheOwner(db: Db, b: Body, k: nat)
    requires Valid(db) && k < |db.users| && Truthy(b.email, "") && db.users[k].email == b.email.value
    ensures Post(db, b) == Ok("Login successful", db.users[k])
  {
    EmailIndexIs(db.users, b.email.value, k);
  }

  /** A successful registration followed by a login with the same e-mail
      returns the registered user. */
  lemma RegisterThenLogin(db: Db, b: AuthRegisterRoute.Body, newId: UserId)
    requires AuthRegisterRoute.Post(db, b, newId).response.Ok?
    ensures var reg := AuthRegisterRoute.Post(db, b, newId);
      Post(reg.db, Body(b.email)) == Ok("Login successful", reg.response.data)
  {
    var reg := AuthRegisterRoute.Post(db, b, newId);
    EmailIndexIs(reg.db.users, b.email.value, |db.users|);
  }
}
