/**
 * The route table: which URL redirects where, and which guards, in which
 * order, protect each page. Guard bodies are not part of this model; a guard's
 * verdict is supplied by the caller as `decide`.
 */
module AppRoutes {

  datatype Guard = AuthGuard | AdminGuard | GuestGuard

  /** Angular's `pathMatch`: 'full' must consume the whole URL, 'prefix' (the default) a leading part of it. */
  datatype PathMatch = Full | Prefix

  /** A route entry. A URL is its list of path segments; `path` is the route's own segment list. */
  datatype Route =
    | RedirectRoute(path: seq<string>, redirectTo: seq<string>, pathMatch: PathMatch)
    | PageRoute(path: seq<string>, guards: seq<Guard>)
    | Wildcard(redirectTo: seq<string>)

  /** What the router does with a URL: follow a redirect, or activate a page behind its guards. */
  datatype Resolution = Redirect(target: seq<string>) | Activate(page: seq<string>, guards: seq<Guard>)

  /** The verdict of one guard or of a guard chain. */
  datatype Decision = Allow | RedirectTo(url: seq<string>)

  const Dashboard := ["dashboard"]

  /** The table, in declaration order. */
  const Routes: seq<Route> := [
    RedirectRoute([], Dashboard, Full),
    PageRoute(["login"], [GuestGuard]),
    PageRoute(["unauthorized"], []),
    PageRoute(["dashboard"], [AuthGuard]),
    PageRoute(["users"], [AuthGuard]),
    PageRoute(["forms"], [AuthGuard]),
    PageRoute(["admin"], [AuthGuard, AdminGuard]),
    PageRoute(["pwa-demo"], [AuthGuard]),
    Wildcard(Dashboard)
  ]

  /** The pages a URL can activate directly. */
  const Pages: set<seq<string>> := {["login"], ["unauthorized"], ["dashboard"], ["users"], ["forms"], ["admin"], ["pwa-demo"]}

  /**
   * A route matches when it consumes the whole URL. A page route has no
   * children, so after its prefix no segment may be left over.
   */
  predicate Matches(route: Route, url: seq<string>) {
    match route
    case RedirectRoute(path, _, pathMatch) => url == path || (pathMatch.Prefix? && |path| > 0 && |path| <= |url| && url[..|path|] == path)
    case PageRoute(path, _) => url == path
    case Wildcard(_) => true
  }

  /** What the router does once `route` has matched. */
  function ResolutionOf(route: Route): Resolution {
    match route
    case RedirectRoute(_, target, _) => Redirect(target)
    case PageRoute(path, guards) => Activate(path, guards)
    case Wildcard(target) => Redirect(target)
  }

  /** The first route of `routes` that matches; a table that ends in a wildcard always has one. */
  function FirstMatch(routes: seq<Route>, url: seq<string>): (r: Resolution)
    requires |routes| > 0 && routes[|routes| - 1].Wildcard?
    ensures exists k :: 0 <= k < |routes| && Matches(routes[k], url) && r == ResolutionOf(routes[k]) &&
                        forall j :: 0 <= j < k ==> !Matches(routes[j], url)
    decreases |routes|
  {
    if Matches(routes[0], url) then ResolutionOf(routes[0])
    else
      var r := FirstMatch(routes[1..], url);
      var k :| 0 <= k < |routes| - 1 && Matches(routes[1..][k], url) && r == ResolutionOf(routes[1..][k]) &&
               forall j :: 0 <= j < k ==> !Matches(routes[1..][j], url);
      assert forall j :: 1 <= j <= k ==> routes[j] == routes[1..][j - 1];
      assert Matches(routes[k + 1], url);
      r
  }

  /** Where in the table the page route for `url` is declared. */
  function PageIndex(url: seq<string>): (p: nat)
    requires url in Pages
    ensures p < |Routes| && Routes[p].PageRoute? && Routes[p].path == url
    ensures forall j :: 0 <= j < p ==> !Matches(Routes[j], url)
  {
    if url == ["login"] then 1
    else if url == ["unauthorized"] then 2
    else if url == ["dashboard"] then 3
    else if url == ["users"] then 4
    else if url == ["forms"] then 5
    else if url == ["admin"] then 6
    else 7
  }

  /** Router lookup for a URL in the application's table. */
  function Resolve(url: seq<string>): (r: Resolution)
    ensures url !in Pages ==> r == Redirect(Dashboard)
    ensures url in Pages ==> r == Activate(url, Routes[PageIndex(url)].guards)
  {
    var r := FirstMatch(Routes, url);
    var k :| 0 <= k < |Routes| && Matches(Routes[k], url) && r == ResolutionOf(Routes[k]) &&
             forall j :: 0 <= j < k ==> !Matches(Routes[j], url);
    if url in Pages then
      var p := PageIndex(url);
      assert Matches(Routes[p], url);
      assert k == p;
      r
    else
      assert k < 8 ==> url == [];
      r
  }

  /** The guards of each page, as declared. */
  lemma PageGuards()
    ensures Resolve(["login"]).guards == [GuestGuard]
    ensures Resolve(["unauthorized"]).guards == []
    ensures Resolve(["dashboard"]).guards == [AuthGuard]
    ensures Resolve(["users"]).guards == [AuthGuard]
    ensures Resolve(["forms"]).guards == [AuthGuard]
    ensures Resolve(["pwa-demo"]).guards == [AuthGuard]
    ensures Resolve(["admin"]).guards == [AuthGuard, AdminGuard]
  {
    assert PageIndex(["login"]) == 1;
    assert PageIndex(["unauthorized"]) == 2;
    assert PageIndex(["dashboard"]) == 3;
    assert PageIndex(["users"]) == 4;
    assert PageIndex(["forms"]) == 5;
    assert PageIndex(["admin"]) == 6;
    assert PageIndex(["pwa-demo"]) == 7;
  }

  /** Navigation: one redirect at most, then a page. Every URL ends on a page. */
  function Navigate(url: seq<string>): (r: Resolution)
    ensures r.Activate?
    ensures url in Pages ==> r.page == url
    ensures url !in Pages ==> r.page == Dashboard && r.guards == [AuthGuard]
  {
    match Resolve(url)
    case Redirect(target) => Resolve(target)
    case Activate(page, guards) => Activate(page, guards)
  }

  /**
   * Runs `guards` in order and stops at the first that does not allow;
   * that guard's verdict is the chain's.
   */
  function RunGuards(guards: seq<Guard>, decide: Guard -> Decision): (d: Decision)
    ensures d.Allow? <==> forall i :: 0 <= i < |guards| ==> decide(guards[i]).Allow?
    ensures !d.Allow? ==> exists i :: 0 <= i < |guards| && d == decide(guards[i]) &&
                                      forall j :: 0 <= j < i ==> decide(guards[j]).Allow?
    decreases |guards|
  {
    if |guards| == 0 then Allow
    else if decide(guards[0]).Allow? then
      var d := RunGuards(guards[1..], decide);
      assert forall i :: 1 <= i < |guards| ==> guards[i] == guards[1..][i - 1];
      d
    else decide(guards[0])
  }

  /**
   * On the admin page the authentication guard is asked first: when it
   * denies, its verdict stands whatever the admin guard would say.
   */
  lemma AdminChainOrder(decide: Guard -> Decision)
    ensures !decide(AuthGuard).Allow? ==> RunGuards(Resolve(["admin"]).guards, decide) == decide(AuthGuard)
    ensures decide(AuthGuard).Allow? ==> RunGuards(Resolve(["admin"]).guards, decide) == decide(AdminGuard)
  {
    PageGuards();
    assert [AuthGuard, AdminGuard][1..] == [AdminGuard];
  }
}
