// client/src/App.js: the front end's sign-in state. AuthProvider keeps the
// signed-in user; its login accepts only the demo account and its register
// accepts anything, without calling the server. useAuth reads the provider, or a
// signed-out fallback outside one, and the two route guards decide from it
// whether a page shows, waits or redirects. React rendering is outside the model:
// a guard's decision is the Screen it returns.

module AuthState {
  import opened Optional
  import opened Js

  const DemoEmail := "demo@salon.com"
  const DemoPassword := "demo123"
  const DemoName := "Demo Salon"
  const LoginPage := "/login"
  const DashboardPage := "/dashboard"

  /** The user object the provider stores: every user gets id 1. */
  datatype User = User(id: int, name: JsValue, email: JsValue)

  /** The part of the context value the guards read. */
  datatype AuthView = AuthView(user: Option<User>, loading: bool)

  /** `data.name`, `data.email`: a missing field is undefined. */
  function Field(data: map<string, string>, key: string): (v: JsValue)
    ensures key in data ==> v == Str(data[key])
    ensures key !in data ==> v == Undefined
  {
    if key in data then Str(data[key]) else Undefined
  }

  class AuthProvider {
    var user: Option<User>
    var loading: bool

    /** The initial state: nobody signed in, not loading. */
    constructor ()
      ensures user == None && !loading
    {
      user := None;
      loading := false;
    }

    /** The context value the provider hands down. */
    function View(): AuthView
      reads this
    {
      AuthView(user, loading)
    }

    /** `isAuthenticated: !!user`. */
    predicate IsAuthenticated()
      reads this
    {
      user.Some?
    }

    /** login: the demo account signs in as the demo salon; anything else is
        refused and the state is kept. */
    method Login(email: string, password: string) returns (ok: bool)
      modifies this
      ensures ok <==> email == DemoEmail && password == DemoPassword
      ensures ok ==> user == Some(User(1, Str(DemoName), Str(email)))
      ensures !ok ==> user == old(user)
      ensures loading == old(loading)
    {
      if email == DemoEmail && password == DemoPassword {
        user := Some(User(1, Str(DemoName), Str(email)));
        return true;
      }
      return false;
    }

    /** register: always succeeds, signing in a user named after the form. */
    method Register(data: map<string, string>) returns (ok: bool)
      modifies this
      ensures ok
      ensures user == Some(User(1, Field(data, "name"), Field(data, "email")))
      ensures loading == old(loading)
    {
      user := Some(User(1, Field(data, "name"), Field(data, "email")));
      return true;
    }

    /** logout: signs out. */
    method Logout()
      modifies this
      ensures user == None && loading == old(loading)
    {
      user := None;
    }
  }

  /** useAuth: the provider's value, or outside a provider a signed-out, not
      loading fallback. */
  function UseAuth(provider: Option<AuthView>): (v: AuthView)
    ensures provider.Some? ==> v == provider.value
    ensures provider.None? ==> v.user.None? && !v.loading
  {
    match provider
    case None => AuthView(None, false)
    case Some(view) => view
  }

  /** What a guard renders. */
  datatype Screen = Spinner | Children | Redirect(to: string)

  /** ProtectedRoute: wait while loading, show the page to a signed-in user,
      send anybody else to the login page. */
  function ProtectedRoute(view: AuthView): (s: Screen)
    ensures view.loading <==> s == Spinner
    ensures !view.loading ==> (s == Children <==> view.user.Some?)
    ensures !view.loading && view.user.None? ==> s == Redirect(LoginPage)
  {
    if view.loading then Spinner
    else if view.user.Some? then Children
    else Redirect(LoginPage)
  }

  /** PublicRoute: wait while loading, send a signed-in user to the dashboard,
      show the page to anybody else. */
  function PublicRoute(view: AuthView): (s: Screen)
    ensures view.loading <==> s == Spinner
    ensures !view.loading ==> (s == Children <==> view.user.None?)
    ensures !view.loading && view.user.Some? ==> s == Redirect(DashboardPage)
  {
    if view.loading then Spinner
    else if view.user.Some? then Redirect(DashboardPage)
    else Children
  }

  /** Once loading is over, exactly one of the two guards shows its page, and the
      other redirects to the page the first one guards: no redirect loops. */
  lemma GuardsComplementary(view: AuthView)
    requires !view.loading
    ensures (ProtectedRoute(view) == Children) != (PublicRoute(view) == Children)
    ensures ProtectedRoute(view) == Redirect(LoginPage) <==> PublicRoute(view) == Children
    ensures PublicRoute(view) == Redirect(DashboardPage) <==> ProtectedRoute(view) == Children
  {
  }

  /** Outside a provider nobody is signed in: protected pages go to the login page
      and public pages show. */
  lemma FallbackSignedOut()
    ensures ProtectedRoute(UseAuth(None)) == Redirect(LoginPage)
    ensures PublicRoute(UseAuth(None)) == Children
  {
  }

  /** The provider's state drives the guards: its loading flag starts false and no
      method sets it, so a page under ProtectedRoute shows exactly when
      isAuthenticated holds. */
  lemma ProtectedIffAuthenticated(provider: AuthProvider)
    requires !provider.loading
    ensures ProtectedRoute(UseAuth(Some(provider.View()))) == Children <==> provider.IsAuthenticated()
    ensures PublicRoute(UseAuth(Some(provider.View()))) == Children <==> !provider.IsAuthenticated()
  {
  }

  /** A session in the provider: sign in with the demo account, see the dashboard,
      sign out and be sent back to the login page. */
  method DemoSession(provider: AuthProvider) returns (inside: Screen, after: Screen)
    requires !provider.loading
    modifies provider
    ensures inside == Children && after == Redirect(LoginPage)
    ensures provider.user.None? && !provider.loading
  {
    var ok := provider.Login(DemoEmail, DemoPassword);
    inside := ProtectedRoute(UseAuth(Some(provider.View())));
    provider.Logout();
    after := ProtectedRoute(UseAuth(Some(provider.View())));
  }
}
