/**
 * vue/src/router/index.ts: the route table's `meta` flags and the
 * `beforeEach` guard, as a function from the target and the store's
 * `isAuthenticated` to the one call of `next` the guard makes.
 */
module Router {
  import opened Types
  import opened Seqs

  datatype RouteMeta = RouteMeta(requiresAuth: bool, guestOnly: bool)

  datatype RouteRecord = RouteRecord(path: string, name: string, meta: RouteMeta)

  const NoMeta: RouteMeta := RouteMeta(false, false)
  const GuestOnly: RouteMeta := RouteMeta(false, true)
  const RequiresAuth: RouteMeta := RouteMeta(true, false)

  /** The five routes, in declaration order. */
  const Routes: seq<RouteRecord> := [
    RouteRecord("/", "home", NoMeta),
    RouteRecord("/login", "login", GuestOnly),
    RouteRecord("/register", "register", GuestOnly),
    RouteRecord("/posts", "posts", RequiresAuth),
    RouteRecord("/chat", "chat", RequiresAuth)
  ]

  /** The parts of the target location `to` the guard reads. */
  datatype Target = Target(fullPath: string, meta: RouteMeta)

  /** `next()`, or `next({ name, query })`. */
  datatype Navigation = Proceed | Redirect(name: string, query: map<string, string>)

  const LoginRoute: string := "login"
  const HomeRoute: string := "home"
  const RedirectParam: string := "redirect"

  /**
   * `beforeEach`: a protected target without authentication goes to login,
   * remembering where it was headed; otherwise a guest-only target with
   * authentication goes home; otherwise navigation proceeds.
   */
  function BeforeEach(to: Target, isAuthenticated: bool): (n: Navigation)
    ensures n == Redirect(LoginRoute, map[RedirectParam := to.fullPath])
            <==> to.meta.requiresAuth && !isAuthenticated
    ensures n == Redirect(HomeRoute, map[]) <==> to.meta.guestOnly && isAuthenticated
    ensures n == Proceed <==> !(to.meta.requiresAuth && !isAuthenticated) && !(to.meta.guestOnly && isAuthenticated)
  {
    if to.meta.requiresAuth && !isAuthenticated then Redirect(LoginRoute, map[RedirectParam := to.fullPath])
    else if to.meta.guestOnly && isAuthenticated then Redirect(HomeRoute, map[])
    else Proceed
  }

  /** A signed-in user is never sent to login, and a guest is never sent home. */
  lemma GuardDirections(to: Target, isAuthenticated: bool)
    ensures isAuthenticated ==> !(BeforeEach(to, isAuthenticated).Redirect? && BeforeEach(to, isAuthenticated).name == LoginRoute)
    ensures !isAuthenticated ==> !(BeforeEach(to, isAuthenticated).Redirect? && BeforeEach(to, isAuthenticated).name == HomeRoute)
  {
  }

  function NameIs(name: string): RouteRecord -> bool {
    (r: RouteRecord) => r.name == name
  }

  /** The route table entry of a name. */
  function RouteNamed(name: string): (r: Option<RouteRecord>)
    ensures r.Some? ==> r.value in Routes && r.value.name == name
  {
    FindFirst(Routes, NameIs(name))
  }

  /** The two names the guard redirects to resolve to their records. */
  lemma RedirectNamesResolve()
    ensures RouteNamed(HomeRoute) == Some(Routes[0])
    ensures RouteNamed(LoginRoute) == Some(Routes[1])
  {
  }

  /**
   * A redirect never loops: the route the guard redirects to is let through on
   * the next navigation, with the same authentication state.
   */
  lemma RedirectTargetProceeds(to: Target, isAuthenticated: bool, fullPath: string)
    requires BeforeEach(to, isAuthenticated).Redirect?
    ensures RouteNamed(BeforeEach(to, isAuthenticated).name).Some?
    ensures BeforeEach(Target(fullPath, RouteNamed(BeforeEach(to, isAuthenticated).name).value.meta), isAuthenticated)
         == Proceed
  {
    RedirectNamesResolve();
  }

  /** The table's routes: home is always open, login and register turn signed-in users away, posts and chat turn guests away. */
  lemma RouteTableBehaviour(i: nat, fullPath: string, isAuthenticated: bool)
    requires i < |Routes|
    ensures Routes[i].name == "home" ==> BeforeEach(Target(fullPath, Routes[i].meta), isAuthenticated) == Proceed
    ensures Routes[i].name in {"login", "register"} ==>
      BeforeEach(Target(fullPath, Routes[i].meta), isAuthenticated)
      == if isAuthenticated then Redirect(HomeRoute, map[]) else Proceed
    ensures Routes[i].name in {"posts", "chat"} ==>
      BeforeEach(Target(fullPath, Routes[i].meta), isAuthenticated)
      == if isAuthenticated then Proceed else Redirect(LoginRoute, map[RedirectParam := fullPath])
  {
  }
}
