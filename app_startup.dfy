// The backend's start-up: backend/app/main.py imports its three routers,
// and importing a router runs its top level. There every route's decorator
// and every handler's default arguments are evaluated, among them the
// `Depends(...)` dependencies. A dependency the router never bound raises
// NameError during the import, and the application does not start.

module AppStartup {
  import opened Wrappers

  /** A router module: the names its imports bind, and the dependencies its
      routes name, in source order. */
  datatype Router = Router(name: string, bound: set<string>, dependencies: seq<string>)

  datatype Startup = Started | NameError(router: string, missing: string)

  /** The position of the first name that is not bound, if there is one. */
  function FirstUnbound(bound: set<string>, names: seq<string>): (r: Option<nat>)
    ensures r.None? <==> forall k :: 0 <= k < |names| ==> names[k] in bound
    ensures r.Some? ==> r.value < |names| && names[r.value] !in bound
                        && forall k :: 0 <= k < r.value ==> names[k] in bound
    decreases |names|
  {
    if names == [] then None
    else if names[0] !in bound then Some(0)
    else
      match FirstUnbound(bound, names[1..])
      case None => None
      case Some(i) => Some(i + 1)
  }

  /** Importing the routers in order: the first unbound dependency of the
      first router that has one stops the start-up. */
  function Start(routers: seq<Router>): (r: Startup)
    ensures r == Started <==>
      forall i :: 0 <= i < |routers| ==> FirstUnbound(routers[i].bound, routers[i].dependencies).None?
    ensures r.NameError? ==>
      exists i :: 0 <= i < |routers| && routers[i].name == r.router
        && r.missing in routers[i].dependencies && r.missing !in routers[i].bound
    decreases |routers|
  {
    if routers == [] then Started
    else
      var ro := routers[0];
      match FirstUnbound(ro.bound, ro.dependencies)
      case Some(k) => NameError(ro.name, ro.dependencies[k])
      case None =>
        var rest := Start(routers[1..]);
        assert forall i :: 1 <= i < |routers| ==> routers[i] == routers[1..][i - 1];
        rest
  }

  const PDF_ROUTER := Router("pdf_router", {"get_db", "get_current_active_user"},
    ["get_current_active_user", "get_db"])

  const USER_ROUTER := Router("user_router", {"get_db", "get_current_active_user", "get_password_hash"},
    ["get_current_active_user", "get_db"])

  /** The authentication router as written: `refresh_token` depends on
      `get_current_active_user`, which its imports from the security module
      leave out. */
  const AUTH_ROUTER_AS_WRITTEN := Router("auth_router",
    {"get_db", "authenticate_user", "create_access_token", "get_password_hash"},
    ["get_db", "get_db", "get_current_active_user"])

  /** The authentication router with the missing name imported. */
  const AUTH_ROUTER := AUTH_ROUTER_AS_WRITTEN.(bound := AUTH_ROUTER_AS_WRITTEN.bound + {"get_current_active_user"})

  /** As written, the application does not start: importing the
      authentication router stops on the name its refresh route depends on. */
  lemma StartAsWrittenFails()
    ensures Start([PDF_ROUTER, AUTH_ROUTER_AS_WRITTEN, USER_ROUTER]) == NameError("auth_router", "get_current_active_user")
  {
    var deps := AUTH_ROUTER_AS_WRITTEN.dependencies;
    assert deps[2] !in AUTH_ROUTER_AS_WRITTEN.bound by {
      assert deps[2][4] == 'c';
      assert "get_db"[4] == 'd' && "authenticate_user"[0] == 'a' && "create_access_token"[0] == 'c'
        && "get_password_hash"[4] == 'p';
    }
    assert FirstUnbound(AUTH_ROUTER_AS_WRITTEN.bound, deps) == Some(2);
  }

  /** With the import added, every router imports and the application starts. */
  lemma StartCorrected()
    ensures Start([PDF_ROUTER, AUTH_ROUTER, USER_ROUTER]) == Started
  {
  }
}
