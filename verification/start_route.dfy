/**
 The start screen: a spinner while the authentication state loads, then a
 redirect chosen from the two flags.
 */
module StartRoute {
  import opened Js
  import opened AuthContext

  datatype Route = Spinner | Welcome | SignIn | Tabs

  /** `Index`: the checks in order loading, onboarding, authentication. */
  function Choose(st: AuthState): (r: Route)
    ensures r == Spinner <==> st.isLoading
    ensures r == Welcome <==> !st.isLoading && !st.hasSeenOnboarding
    ensures r == SignIn <==> !st.isLoading && st.hasSeenOnboarding && !st.isAuthenticated
    ensures r == Tabs <==> !st.isLoading && st.hasSeenOnboarding && st.isAuthenticated
  {
    if st.isLoading then Spinner
    else if !st.hasSeenOnboarding then Welcome
    else if !st.isAuthenticated then SignIn
    else Tabs
  }

  /** Loading always ends on a redirect, never on the spinner. */
  lemma LoadEndsSpinner(st: AuthState, read: Option<Stored>)
    ensures Choose(Load(st, read)) != Spinner
  {
  }

  /** A first start (nothing stored) goes to the welcome screen. */
  lemma FirstStartWelcomes()
    ensures Choose(Load(Initial, Some(Stored(None, None, None)))) == Welcome
  {
  }

  /** An onboarded user who logs out lands on the sign-in screen, and after
      logging in again on the tabs. */
  lemma LogoutThenLogin(st: AuthState, s: Stored, id: string)
    requires !st.isLoading && st.hasSeenOnboarding
    ensures var out := Logout(st, s, true);
      && Choose(out.0) == SignIn
      && Choose(Login(out.0, out.1, id, true).0) == Tabs
  {
  }
}
