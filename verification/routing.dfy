/** Express dispatch: routes are tried in registration order and the first one
    whose verb and path match handles the request. Every handler here ends by
    sending a response without calling `next`, so a later registration of the
    same verb and path is never reached. */
module Routing {
  import opened Models
  import opened Guard

  datatype Verb = Get | Post | Patch

  /** The handler a registration runs, named after the member that models it. */
  datatype Handler =
    | Register | Login | UpdatePassword | AdminStats | ListUsers | ListStores
    | AddStore | AddUser | ChangeRole | StoreList | OwnerStats | Rate | OwnerStatsUnsorted
    | GetAllStores | SubmitRating

  /** One registration: verb, path pattern, the `protect` roles in front of the
      handler (None when there is no guard), and the handler. */
  datatype Route = Route(verb: Verb, path: string, guard: Option<seq<string>>, handler: Handler)

  predicate Matches(r: Route, verb: Verb, path: string)
  {
    r.verb == verb && r.path == path
  }

  /** The registration that handles a request, or None for Express's 404. */
  function Dispatch(routes: seq<Route>, verb: Verb, path: string): (r: Option<nat>)
    ensures r.Some? ==> r.value < |routes| && Matches(routes[r.value], verb, path)
    ensures r.Some? ==> forall j :: 0 <= j < r.value ==> !Matches(routes[j], verb, path)
    ensures r.None? <==> forall j :: 0 <= j < |routes| ==> !Matches(routes[j], verb, path)
  {
    if routes == [] then None
    else if Matches(routes[0], verb, path) then Some(0)
    else match Dispatch(routes[1..], verb, path)
         case None => None
         case Some(k) => Some(k + 1)
  }

  /** A registration preceded by one with the same verb and path never runs. */
  lemma ShadowedNeverDispatched(routes: seq<Route>, j: nat, k: nat, verb: Verb, path: string)
    requires j < k < |routes|
    requires routes[j].verb == routes[k].verb && routes[j].path == routes[k].path
    ensures Dispatch(routes, verb, path) != Some(k)
  {
    if Dispatch(routes, verb, path) == Some(k) {
      assert Matches(routes[j], verb, path);
    }
  }

  /** userRoutes.js in registration order (mounted under `/api/user`). */
  const UserRoutes: seq<Route> := [
    Route(Get, "/stores", Some(["User"]), StoreList),
    Route(Post, "/rate", Some(["User"]), Rate),
    Route(Get, "/stores", Some(["User"]), GetAllStores),
    Route(Post, "/rate", Some(["User"]), SubmitRating)
  ]

  /** The controller registrations at the end of userRoutes.js are dead:
      `getAllStores` and `submitRating` are never dispatched to. */
  lemma ControllerRoutesUnreachable(verb: Verb, path: string)
    ensures Dispatch(UserRoutes, verb, path) != Some(2)
    ensures Dispatch(UserRoutes, verb, path) != Some(3)
    ensures Dispatch(UserRoutes, Get, "/stores") == Some(0)
    ensures Dispatch(UserRoutes, Post, "/rate") == Some(1)
  {
    ShadowedNeverDispatched(UserRoutes, 0, 2, verb, path);
    ShadowedNeverDispatched(UserRoutes, 1, 3, verb, path);
  }

  /** The routes of server.js in registration order. */
  const AppRoutes: seq<Route> := [
    Route(Post, "/api/auth/register", None, Register),
    Route(Post, "/api/auth/login", None, Login),
    Route(Post, "/api/auth/update-password", Some([]), UpdatePassword),
    Route(Get, "/api/admin/stats", Some(["Admin"]), AdminStats),
    Route(Get, "/api/admin/users", Some(["Admin"]), ListUsers),
    Route(Get, "/api/admin/stores", Some(["Admin"]), ListStores),
    Route(Post, "/api/admin/add-store", Some(["Admin"]), AddStore),
    Route(Post, "/api/admin/add-user", Some(["Admin"]), AddUser),
    Route(Patch, "/api/admin/users/:id/role", Some(["Admin"]), ChangeRole),
    Route(Get, "/api/user/stores", Some(["User"]), StoreList),
    Route(Get, "/api/store/my-stats", Some(["StoreOwner"]), OwnerStats),
    Route(Post, "/api/user/rate", Some(["User"]), Rate),
    Route(Get, "/api/store/my-stats", Some(["StoreOwner"]), OwnerStatsUnsorted)
  ]

  /** The second `/api/store/my-stats` of server.js is dead: the first one
      (with the 404 and the newest-first order) always answers. */
  lemma UnsortedStatsUnreachable(verb: Verb, path: string)
    ensures Dispatch(AppRoutes, verb, path) != Some(12)
  {
    ShadowedNeverDispatched(AppRoutes, 10, 12, verb, path);
  }

  /** The first matching registration is the one dispatched to. */
  lemma FirstMatchDispatched(routes: seq<Route>, k: nat, verb: Verb, path: string)
    requires k < |routes| && Matches(routes[k], verb, path)
    requires forall j :: 0 <= j < k ==> !Matches(routes[j], verb, path)
    ensures Dispatch(routes, verb, path) == Some(k)
  {
    assert Dispatch(routes, verb, path).Some?;
  }

  /** A GET of the owner statistics reaches the first registration. */
  lemma OwnerStatsDispatched(path: string)
    requires path == "/api/store/my-stats"
    ensures Dispatch(AppRoutes, Get, path) == Some(10)
  {
    var p := AppRoutes[..10];
    assert p[0].verb != Get && p[1].verb != Get && p[2].verb != Get;
    assert p[6].verb != Get && p[7].verb != Get && p[8].verb != Get;
    assert p[3].path[5] != path[5] && p[4].path[5] != path[5];
    assert p[5].path[5] != path[5] && p[9].path[5] != path[5];
    FirstMatchDispatched(AppRoutes, 10, Get, path);
  }

  /** Every route under /api/admin/ admits only Admin tokens: a verified token
      of any other role is refused with 403 before the handler runs. */
  lemma AdminRoutesAdminOnly(k: nat, header: Option<string>, verify: string -> Option<Claims>)
    requires 3 <= k <= 8
    requires TokenOf(header).Some? && verify(TokenOf(header).value).Some?
    requires verify(TokenOf(header).value).value.role != "Admin"
    ensures AppRoutes[k].guard == Some(["Admin"])
    ensures Decide(header, verify, AppRoutes[k].guard.value, AppMessages) == Halt(403, AppMessages.forbidden)
  {
  }
}
