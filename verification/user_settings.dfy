/**
 `POST /api/v1/user/settings`: an UPDATE of the caller's `users` row (not an
 upsert). The theme is written as sent; the notification flag is stored as
 the integer 1 when truthy and 0 otherwise.
 */
module UserSettingsRoute {
  import opened Js
  import opened Schema
  import opened Http

  datatype Body = Body(themeMode: Field<string>, notificationsEnabled: Field<bool>)

  /** `notificationsEnabled ? 1 : 0`. */
  function NotificationFlag(f: Field<bool>): (n: int)
    ensures n == 1 || n == 0
    ensures n == 1 <==> f == Given(true)
  {
    if f.Given? && f.value then 1 else 0
  }

  /** The SET clause applied to one row. */
  function ApplySettings(u: User, b: Body): (u': User)
    ensures u'.id == u.id && u'.email == u.email && u'.name == u.name && u'.imageUrl == u.imageUrl
  {
    u.(themeMode := Written(u.themeMode, b.themeMode),
       notificationsEnabled := Some(NotificationFlag(b.notificationsEnabled)))
  }

  /** UPDATE users SET ... WHERE id = caller: every matching row is rewritten,
      every other row is left as it was. */
  function UpdateWhere(users: seq<User>, id: UserId, b: Body): (r: seq<User>)
    ensures |r| == |users|
    ensures forall k :: 0 <= k < |users| && users[k].id != id ==> r[k] == users[k]
    ensures forall k :: 0 <= k < |users| && users[k].id == id ==>
      && r[k].id == id && r[k].email == users[k].email
      && r[k].name == users[k].name && r[k].imageUrl == users[k].imageUrl
      && Holds(r[k].themeMode, b.themeMode, users[k].themeMode)
      && r[k].notificationsEnabled == Some(if b.notificationsEnabled == Given(true) then 1 else 0)
  {
    if |users| == 0 then []
    else
      var u := if users[0].id == id then ApplySettings(users[0], b) else users[0];
      [u] + UpdateWhere(users[1..], id, b)
  }

  /** The handler: the update cannot violate a constraint, so it always
      answers success and echoes the raw body, not the stored integer. */
  function Post(db: Db, id: UserId, b: Body): (r: Reply<Body>)
    ensures r.response == Ok("Settings synced successfully", b)
    ensures r.db == db.(users := UpdateWhere(db.users, id, b))
    ensures HasUser(r.db, id) <==> HasUser(db, id)
    ensures Valid(db) ==> Valid(r.db)
  {
    var users := UpdateWhere(db.users, id, b);
    UpdateKeepsUsers(db, users, id);
    Reply(Ok("Settings synced successfully", b), db.(users := users))
  }

  lemma UpdateKeepsUsers(db: Db, users: seq<User>, id: UserId)
    requires |users| == |db.users|
    requires forall k :: 0 <= k < |users| ==> users[k].id == db.users[k].id && users[k].email == db.users[k].email
    ensures HasUser(db.(users := users), id) <==> HasUser(db, id)
    ensures Valid(db) ==> Valid(db.(users := users))
  {
    HasUserMeansIsUser(db, id);
    HasUserMeansIsUser(db.(users := users), id);
    if IsUser(db.users, id) {
      SameIdsKeepUsers(db.users, users, id);
    }
    if IsUser(users, id) {
      var i :| 0 <= i < |users| && users[i].id == id;
      assert db.users[i].id == id;
    }
    if Valid(db) {
      forall x | IsUser(db.users, x)
        ensures IsUser(users, x)
      {
        SameIdsKeepUsers(db.users, users, x);
      }
    }
  }

  /** An unknown caller changes nothing: no row is created. */
  lemma UnknownUserChangesNothing(db: Db, id: UserId, b: Body)
    requires !HasUser(db, id)
    ensures Post(db, id, b).db == db
  {
    HasUserMeansIsUser(db, id);
    assert UpdateWhere(db.users, id, b) == db.users;
  }

  /** Any value but `true` switches notifications off. */
  lemma FalsyFlagStoresZero(u: User, b: Body)
    requires b.notificationsEnabled != Given(true)
    ensures ApplySettings(u, b).notificationsEnabled == Some(0)
  {
  }
}
