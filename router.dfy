/**
 * The front end's route table and the decision its global navigation guard
 * takes before every navigation. Who is signed in is an input: the guard's
 * wait for the authentication service is not part of this model.
 */
module Router {
  import opened Arrays

  /** The route metadata the guard reads; a flag missing from a route's `meta` is false. */
  datatype RouteMeta = RouteMeta(requiresAuth: bool, requiresGuest: bool)

  datatype RouteRecord = RouteRecord(path: string, name: string, meta: RouteMeta)

  const RootPath: string := "/"
  const LoginPath: string := "/login"

  /** The dashboard needs a signed-in user; the login page is for guests only. */
  function Routes(): (routes: seq<RouteRecord>)
    ensures |routes| == 2
    ensures forall i :: 0 <= i < |routes| ==>
              !(routes[i].meta.requiresAuth && routes[i].meta.requiresGuest)
    ensures exists i :: 0 <= i < |routes| && routes[i].path == RootPath && routes[i].meta.requiresAuth
    ensures exists i :: 0 <= i < |routes| && routes[i].path == LoginPath && routes[i].meta.requiresGuest
  {
    var routes := [
      RouteRecord(RootPath, "dashboard", RouteMeta(true, false)),
      RouteRecord(LoginPath, "login", RouteMeta(false, true))
    ];
    assert routes[0].path == RootPath && routes[1].path == LoginPath;
    routes
  }

  /** ASCII lower-casing of one character. */
  function LowerChar(c: char): char
  {
    if 'A' <= c <= 'Z' then (c as int + 32) as char else c
  }

  function Lower(s: string): (r: string)
    ensures |r| == |s|
  {
    seq(|s|, i requires 0 <= i < |s| => LowerChar(s[i]))
  }

  /**
   * The router's default matching of a static route path: letter case is
   * ignored, and one trailing slash after the route's path is accepted.
   */
  predicate PathMatches(routePath: string, path: string)
  {
    Lower(path) == Lower(routePath) || Lower(path) == Lower(routePath) + "/"
  }

  /**
   * The records a navigation to `path` matches, in table order. The table
   * has no nested routes, so these are the records whose path matches.
   */
  function Matched(routes: seq<RouteRecord>, path: string): (matched: seq<RouteMeta>)
    ensures |matched| <= |routes|
    ensures forall m :: m in matched <==>
              exists i :: 0 <= i < |routes| && PathMatches(routes[i].path, path) && routes[i].meta == m
  {
    if routes == [] then []
    else
      var rest := Matched(routes[1..], path);
      assert forall i :: 0 < i < |routes| ==> routes[i] == routes[1..][i - 1];
      if PathMatches(routes[0].path, path) then [routes[0].meta] + rest else rest
  }

  /** What the guard tells the router: go to another path, or let the navigation through. */
  datatype Decision = Redirect(path: string) | Proceed

  /** `to.matched.some(record => record.meta.requiresAuth)` */
  function RequiresAuth(matched: seq<RouteMeta>): (r: bool)
    ensures r <==> exists i :: 0 <= i < |matched| && matched[i].requiresAuth
  {
    var p := (m: RouteMeta) => m.requiresAuth;
    AnyIff(matched, p);
    Any(matched, p)
  }

  /** `to.matched.some(record => record.meta.requiresGuest)` */
  function RequiresGuest(matched: seq<RouteMeta>): (r: bool)
    ensures r <==> exists i :: 0 <= i < |matched| && matched[i].requiresGuest
  {
    var p := (m: RouteMeta) => m.requiresGuest;
    AnyIff(matched, p);
    Any(matched, p)
  }

  /**
   * The guard's decision for a navigation matching `matched`, with or without
   * a signed-in user. Exactly one of the three outcomes holds.
   */
  function Guard(matched: seq<RouteMeta>, hasUser: bool): (d: Decision)
    ensures d == Redirect(LoginPath) <==>
              !hasUser && exists i :: 0 <= i < |matched| && matched[i].requiresAuth
    ensures d == Redirect(RootPath) <==>
              hasUser && exists i :: 0 <= i < |matched| && matched[i].requiresGuest
    ensures d == Proceed <==>
              (hasUser || forall i :: 0 <= i < |matched| ==> !matched[i].requiresAuth) &&
              (!hasUser || forall i :: 0 <= i < |matched| ==> !matched[i].requiresGuest)
  {
    if RequiresAuth(matched) && !hasUser then Redirect(LoginPath)
    else if RequiresGuest(matched) && hasUser then Redirect(RootPath)
    else Proceed
  }

  /** A route flagged both ways sends a signed-out visitor to the login page, never to the root. */
  lemma AuthCheckFirst(matched: seq<RouteMeta>, i: int)
    requires 0 <= i < |matched|
    requires matched[i].requiresAuth && matched[i].requiresGuest
    ensures Guard(matched, false) == Redirect(LoginPath)
  {
  }

  /**
   * A signed-in user is never sent to the login page and a signed-out visitor
   * never to the root; a user on a route with no guest flag, and a visitor on
   * one with no auth flag, go through.
   */
  lemma NoRedirectWithinOwnSide(matched: seq<RouteMeta>)
    ensures Guard(matched, true) != Redirect(LoginPath)
    ensures Guard(matched, false) != Redirect(RootPath)
    ensures (forall i :: 0 <= i < |matched| ==> !matched[i].requiresGuest) ==> Guard(matched, true) == Proceed
    ensures (forall i :: 0 <= i < |matched| ==> !matched[i].requiresAuth) ==> Guard(matched, false) == Proceed
  {
  }

  /** The records the two route paths match. */
  lemma MatchedRoutes()
    ensures Matched(Routes(), RootPath) == [RouteMeta(true, false)]
    ensures Matched(Routes(), LoginPath) == [RouteMeta(false, true)]
  {
  }

  /**
   * Spellings of the login path with other letter case or a trailing slash
   * reach the login record too, so a signed-in user is sent to the root.
   */
  lemma LoginSpellingsMatch(path: string)
    requires path == "/login/" || path == "/LOGIN" || path == "/Login/"
    ensures Matched(Routes(), path) == [RouteMeta(false, true)]
    ensures Guard(Matched(Routes(), path), true) == Redirect(RootPath)
  {
  }

  /**
   * Following a redirect with the same user state never redirects again:
   * every target is a route of the table, and the guard lets it through.
   */
  lemma RedirectIsStable(matched: seq<RouteMeta>, hasUser: bool)
    ensures Guard(matched, hasUser).Redirect? ==>
              var target := Guard(matched, hasUser).path;
              (exists i :: 0 <= i < |Routes()| && Routes()[i].path == target) &&
              Guard(Matched(Routes(), target), hasUser) == Proceed
  {
    MatchedRoutes();
    var d := Guard(matched, hasUser);
    if d == Redirect(LoginPath) {
      assert Routes()[1].path == LoginPath;
      assert Guard([RouteMeta(false, true)], false) == Proceed;
    } else if d == Redirect(RootPath) {
      assert Routes()[0].path == RootPath;
      assert Guard([RouteMeta(true, false)], true) == Proceed;
    }
  }
}
