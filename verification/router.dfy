/** The client router: the route table's meta flags and the navigation
    guard run before every navigation. */
module Router {
  import opened Common

  /** The named routes. */
  datatype Route = Login | Register | App | Home | Company | Channel | DirectMessages | Conversation | Settings | NotFound

  /** The parent record of a nested route. */
  function Parent(r: Route): (p: Option<Route>)
    ensures p.Some? ==> p.value != r
  {
    match r
    case Home => Some(App)
    case Company => Some(App)
    case Channel => Some(Company)
    case DirectMessages => Some(App)
    case Conversation => Some(DirectMessages)
    case Settings => Some(App)
    case _ => None
  }

  /** The nesting depth, which bounds the walk to the root record. */
  function Depth(r: Route): nat {
    match r
    case Channel => 2
    case Conversation => 2
    case Home => 1
    case Company => 1
    case DirectMessages => 1
    case Settings => 1
    case _ => 0
  }

  /** The flags each record declares itself. */
  predicate DeclaresRequiresAuth(r: Route) {
    r == App
  }

  predicate DeclaresGuest(r: Route) {
    r == Login || r == Register
  }

  /** `to.meta`: the router merges the meta of every matched record, parent
      first, so a child sees its ancestors' flags. */
  predicate RequiresAuth(r: Route)
    decreases Depth(r)
  {
    DeclaresRequiresAuth(r) || (Parent(r).Some? && Depth(Parent(r).value) < Depth(r) && RequiresAuth(Parent(r).value))
  }

  predicate Guest(r: Route)
    decreases Depth(r)
  {
    DeclaresGuest(r) || (Parent(r).Some? && Depth(Parent(r).value) < Depth(r) && Guest(Parent(r).value))
  }

  /** Every page under the application shell requires authentication; only
      the two authentication pages are guest-only; no page is both. */
  lemma MetaOfRoutes(r: Route)
    ensures RequiresAuth(r) <==> r in {App, Home, Company, Channel, DirectMessages, Conversation, Settings}
    ensures Guest(r) <==> r == Login || r == Register
    ensures !(RequiresAuth(r) && Guest(r))
  {
  }

  /** What the auth store holds when the guard runs. */
  datatype Auth = Auth(token: Option<string>, user: Option<Id>)

  /** `!!token`: a present, non-empty token. */
  predicate HasToken(a: Auth) {
    a.token.Some? && a.token.value != ""
  }

  /** `isAuthenticated`. */
  predicate IsAuthenticated(a: Auth) {
    HasToken(a) && a.user.Some?
  }

  /** `fetchUser` with the server's answer: the user on success, no user on
      failure (the logout it starts completes later). */
  function FetchUser(a: Auth, answer: Option<Id>): (r: Auth)
    ensures !HasToken(a) ==> r == a
    ensures HasToken(a) ==> r.token == a.token && r.user == answer
  {
    if !HasToken(a) then a else a.(user := answer)
  }

  datatype Decision = ToLogin(redirect: string) | ToApp | Proceed

  /** The guard: a token without a user is resolved first (with the server's
      answer); then a route needing authentication sends a visitor to login
      with the target as redirect, a guest-only route sends a signed-in user
      to the application, and everything else proceeds. */
  function Guard(a: Auth, answer: Option<Id>, to: Route, fullPath: string): (r: (Auth, Decision))
    ensures HasToken(a) && a.user.None? ==> r.0 == FetchUser(a, answer)
    ensures !(HasToken(a) && a.user.None?) ==> r.0 == a
    ensures r.1 == ToLogin(fullPath) <==> RequiresAuth(to) && !IsAuthenticated(r.0)
    ensures r.1 == ToApp <==> Guest(to) && IsAuthenticated(r.0)
    ensures r.1 == Proceed <==> !(RequiresAuth(to) && !IsAuthenticated(r.0)) && !(Guest(to) && IsAuthenticated(r.0))
  {
    MetaOfRoutes(to);
    var a' := if HasToken(a) && a.user.None? then FetchUser(a, answer) else a;
    if RequiresAuth(to) && !IsAuthenticated(a') then (a', ToLogin(fullPath))
    else if Guest(to) && IsAuthenticated(a') then (a', ToApp)
    else (a', Proceed)
  }

  /** The redirect targets let the navigation through: a visitor sent to login
      and a signed-in user sent to the application are not redirected again,
      so the guard never loops. */
  lemma RedirectsSettle(a: Auth, answer: Option<Id>, to: Route, fullPath: string, path: string)
    ensures var (a', d) := Guard(a, answer, to, fullPath);
            (d.ToLogin? ==> Guard(a', answer, Login, path).1 == Proceed) &&
            (d.ToApp? ==> Guard(a', answer, App, path).1 == Proceed)
  {
    MetaOfRoutes(Login);
    MetaOfRoutes(App);
    var (a', d) := Guard(a, answer, to, fullPath);
    if d.ToLogin? && HasToken(a') && a'.user.None? {
      assert Guard(a', answer, Login, path).0 == FetchUser(a', answer);
    }
  }

  /** A stored session whose user the server no longer returns cannot open an
      application page. */
  lemma RejectedSessionGoesToLogin(token: string, to: Route, fullPath: string)
    requires token != "" && RequiresAuth(to)
    ensures Guard(Auth(Some(token), None), None, to, fullPath).1 == ToLogin(fullPath)
  {
  }
}
