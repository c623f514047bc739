/**
 The client's authentication state: three flags and the signed-in user id,
 mirrored in storage under the keys `isAuthenticated`, `hasSeenOnboarding`
 and `userId`. Every action writes storage first and changes the in-memory
 state only when the write succeeded.
 */
module AuthContext {
  import opened Js

  datatype AuthState = AuthState(
    isAuthenticated: bool,
    hasSeenOnboarding: bool,
    isLoading: bool,
    userId: Option<string>)

  /** The three storage keys; `None` is an absent key. */
  datatype Stored = Stored(
    isAuthenticated: Option<string>,
    hasSeenOnboarding: Option<string>,
    userId: Option<string>)

  /** The state before anything was loaded. */
  const Initial := AuthState(false, false, true, None)

  /** A stored flag reads as set only when it is exactly "true". */
  predicate FlagSet(v: Option<string>) {
    v == Some("true")
  }

  /** Once loading is over, the in-memory state is what storage says. */
  predicate Synced(st: AuthState, s: Stored) {
    !st.isLoading ==>
      && st.isAuthenticated == FlagSet(s.isAuthenticated)
      && st.hasSeenOnboarding == FlagSet(s.hasSeenOnboarding)
      && st.userId == s.userId
  }

  /** `loadAuthState`: `read` is what storage returned, `None` when reading
      failed. Loading ends either way. */
  function Load(st: AuthState, read: Option<Stored>): (st': AuthState)
    ensures !st'.isLoading
    ensures read.None? ==> st' == st.(isLoading := false)
    ensures read.Some? ==> Synced(st', read.value)
  {
    match read
    case None => st.(isLoading := false)
    case Some(s) => AuthState(FlagSet(s.isAuthenticated), FlagSet(s.hasSeenOnboarding), false, s.userId)
  }

  /** `login(id)`. */
  function Login(st: AuthState, s: Stored, id: string, writeOk: bool): (r: (AuthState, Stored))
    ensures writeOk ==> r.0 == st.(isAuthenticated := true, userId := Some(id))
    ensures writeOk ==> r.1 == s.(isAuthenticated := Some("true"), userId := Some(id))
    ensures !writeOk ==> r == (st, s)
    ensures r.0.hasSeenOnboarding == st.hasSeenOnboarding && r.0.isLoading == st.isLoading
    ensures Synced(st, s) ==> Synced(r.0, r.1)
  {
    if writeOk then
      (st.(isAuthenticated := true, userId := Some(id)), s.(isAuthenticated := Some("true"), userId := Some(id)))
    else (st, s)
  }

  /** `logout`: both keys are removed. */
  function Logout(st: AuthState, s: Stored, removeOk: bool): (r: (AuthState, Stored))
    ensures removeOk ==> r.0 == st.(isAuthenticated := false, userId := None)
    ensures removeOk ==> r.1 == s.(isAuthenticated := None, userId := None)
    ensures !removeOk ==> r == (st, s)
    ensures r.0.hasSeenOnboarding == st.hasSeenOnboarding && r.0.isLoading == st.isLoading
    ensures Synced(st, s) ==> Synced(r.0, r.1)
  {
    if removeOk then (st.(isAuthenticated := false, userId := None), s.(isAuthenticated := None, userId := None))
    else (st, s)
  }

  /** `completeOnboarding`. */
  function CompleteOnboarding(st: AuthState, s: Stored, writeOk: bool): (r: (AuthState, Stored))
    ensures writeOk ==> r.0 == st.(hasSeenOnboarding := true) && r.1 == s.(hasSeenOnboarding := Some("true"))
    ensures !writeOk ==> r == (st, s)
    ensures Synced(st, s) ==> Synced(r.0, r.1)
  {
    if writeOk then (st.(hasSeenOnboarding := true), s.(hasSeenOnboarding := Some("true"))) else (st, s)
  }

  /** Restarting the app reproduces a synced state from storage. */
  lemma RestartRestoresState(st: AuthState, s: Stored)
    requires !st.isLoading && Synced(st, s)
    ensures Load(Initial, Some(s)) == st
  {
  }

  /** After logging in and restarting, the user is signed in under the same
      id; after logging out and restarting, nobody is. */
  lemma LoginAndLogoutPersist(st: AuthState, s: Stored, id: string)
    requires !st.isLoading && Synced(st, s)
    ensures var r := Login(st, s, id, true);
      Load(Initial, Some(r.1)).isAuthenticated && Load(Initial, Some(r.1)).userId == Some(id)
    ensures var r := Logout(st, s, true);
      !Load(Initial, Some(r.1)).isAuthenticated && Load(Initial, Some(r.1)).userId == None
  {
  }
}
