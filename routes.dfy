/**
 * server/src/routes.ts: the route table below the `/api` root, and the
 * dispatch of a request through its middleware chain to its handler.
 */
module Routes {
  import opened Wrappers
  import opened ApiTypes
  import Auth
  import LinkResolver
  import GroupStore

  datatype Verb = GET | POST | PUT | DELETE | PATCH

  /** A path segment of a route pattern: literal text, or a `:name` parameter. */
  datatype Segment = Lit(text: string) | Param(name: string)

  datatype Middleware = Authenticate

  datatype Handler =
    | Login | GetGroups | CreateGroup | UpdateGroup | DeleteGroup | ChangeGroupStatus | ResolveWaLink

  /** One registration: verb, path pattern, the middleware run first, then the handler. */
  datatype Route = Route(verb: Verb, pattern: seq<Segment>, middleware: seq<Middleware>, handler: Handler)

  /** The registrations, in the order the router tries them. */
  const RouteTable: seq<Route> := [
    Route(POST, [Lit("user"), Lit("login")], [], Login),
    Route(GET, [Lit("groups")], [], GetGroups),
    Route(POST, [Lit("groups")], [Authenticate], CreateGroup),
    Route(PUT, [Lit("groups"), Param("id")], [Authenticate], UpdateGroup),
    Route(DELETE, [Lit("groups"), Param("id")], [Authenticate], DeleteGroup),
    Route(PATCH, [Lit("groups"), Param("id"), Lit("status")], [Authenticate], ChangeGroupStatus),
    Route(GET, [Lit("resolve-wa-link")], [], ResolveWaLink)
  ]

  predicate SegmentMatches(seg: Segment, part: string)
  {
    match seg
    case Lit(t) => part == t
    case Param(_) => part != ""
  }

  /** A pattern matches a path of as many segments: literals exactly, parameters any non-empty segment. */
  predicate Matches(pattern: seq<Segment>, path: seq<string>)
  {
    if pattern == [] then path == []
    else path != [] && SegmentMatches(pattern[0], path[0]) && Matches(pattern[1..], path[1..])
  }

  /** The first registration from position `from` on for this verb whose pattern matches the path. */
  function FindRoute(verb: Verb, path: seq<string>, from: nat): (k: Option<nat>)
    requires from <= |RouteTable|
    ensures k.Some? ==>
      && from <= k.value < |RouteTable|
      && RouteTable[k.value].verb == verb && Matches(RouteTable[k.value].pattern, path)
    ensures k.Some? ==> forall j :: from <= j < k.value ==>
      !(RouteTable[j].verb == verb && Matches(RouteTable[j].pattern, path))
    ensures k.None? ==> forall j :: from <= j < |RouteTable| ==>
      !(RouteTable[j].verb == verb && Matches(RouteTable[j].pattern, path))
    decreases |RouteTable| - from
  {
    if from == |RouteTable| then None
    else if RouteTable[from].verb == verb && Matches(RouteTable[from].pattern, path) then Some(from)
    else FindRoute(verb, path, from + 1)
  }

  /** The registration a request reaches: the first one that matches. */
  function Lookup(verb: Verb, path: seq<string>): (r: Option<Route>)
    ensures r.Some? ==> r.value in RouteTable && r.value.verb == verb && Matches(r.value.pattern, path)
    ensures r.None? <==> forall j :: 0 <= j < |RouteTable| ==>
      !(RouteTable[j].verb == verb && Matches(RouteTable[j].pattern, path))
  {
    match FindRoute(verb, path, 0)
    case None => None
    case Some(k) => Some(RouteTable[k])
  }

  /**
   * When registration `k` matches, the request reaches a registration no
   * later than `k`, and none before the one reached matches.
   */
  lemma LookupIsFirstMatch(verb: Verb, path: seq<string>, k: nat)
    requires k < |RouteTable| && RouteTable[k].verb == verb && Matches(RouteTable[k].pattern, path)
    ensures Lookup(verb, path).Some?
    ensures exists i ::
      && 0 <= i <= k && Lookup(verb, path).value == RouteTable[i]
      && (forall j :: 0 <= j < i ==> !(RouteTable[j].verb == verb && Matches(RouteTable[j].pattern, path)))
  {
    var i := FindRoute(verb, path, 0).value;
    assert Lookup(verb, path).value == RouteTable[i];
  }

  /** The segment under the parameter `name` of a pattern, or "" when it has none. */
  function ParamValue(pattern: seq<Segment>, path: seq<string>, name: string): string
  {
    if pattern == [] || path == [] then ""
    else if pattern[0] == Param(name) then path[0]
    else ParamValue(pattern[1..], path[1..], name)
  }

  predicate Guarded(route: Route)
  {
    Authenticate in route.middleware
  }

  predicate Mutates(h: Handler)
  {
    h == CreateGroup || h == UpdateGroup || h == DeleteGroup || h == ChangeGroupStatus
  }

  /** Exactly the handlers that change the table sit behind the token check. */
  lemma GuardedExactlyWhenMutating(verb: Verb, path: seq<string>)
    ensures Lookup(verb, path).Some? ==>
      (Guarded(Lookup(verb, path).value) <==> Mutates(Lookup(verb, path).value.handler))
  {
    var r := Lookup(verb, path);
    if r.Some? {
      assert r.value in RouteTable;
    }
  }

  /** POST /groups, PUT /groups/:id, DELETE /groups/:id and PATCH /groups/:id/status go through the token check. */
  lemma MutatingRoutesGuarded(id: string)
    requires id != ""
    ensures Lookup(POST, ["groups"]) == Some(RouteTable[2])
    ensures Lookup(PUT, ["groups", id]) == Some(RouteTable[3])
    ensures Lookup(DELETE, ["groups", id]) == Some(RouteTable[4])
    ensures Lookup(PATCH, ["groups", id, "status"]) == Some(RouteTable[5])
    ensures RouteTable[2].middleware == RouteTable[3].middleware == [Authenticate]
    ensures RouteTable[4].middleware == RouteTable[5].middleware == [Authenticate]
  {
    CreateRoute();
    UpdateRoute(id);
    DeleteRoute(id);
    StatusRoute(id);
  }

  lemma CreateRoute()
    ensures Lookup(POST, ["groups"]) == Some(RouteTable[2])
  {
    assert Matches(RouteTable[2].pattern, ["groups"]);
  }

  lemma UpdateRoute(id: string)
    requires id != ""
    ensures Lookup(PUT, ["groups", id]) == Some(RouteTable[3])
  {
    assert Matches(RouteTable[3].pattern, ["groups", id]);
  }

  lemma DeleteRoute(id: string)
    requires id != ""
    ensures Lookup(DELETE, ["groups", id]) == Some(RouteTable[4])
  {
    assert Matches(RouteTable[4].pattern, ["groups", id]);
  }

  lemma StatusRoute(id: string)
    requires id != ""
    ensures Lookup(PATCH, ["groups", id, "status"]) == Some(RouteTable[5])
  {
    var p5, q5 := RouteTable[5].pattern, ["groups", id, "status"];
    assert p5[1..][1..] == [Lit("status")] && q5[1..][1..] == ["status"];
    assert Matches(p5[1..][1..], q5[1..][1..]);
    assert Matches(p5[1..], q5[1..]);
    assert Matches(p5, q5);
  }

  /** /user/login, GET /groups and /resolve-wa-link are reached without the token check. */
  lemma PublicRoutes()
    ensures Lookup(POST, ["user", "login"]) == Some(Route(POST, [Lit("user"), Lit("login")], [], Login))
    ensures Lookup(GET, ["groups"]) == Some(Route(GET, [Lit("groups")], [], GetGroups))
    ensures Lookup(GET, ["resolve-wa-link"]) == Some(Route(GET, [Lit("resolve-wa-link")], [], ResolveWaLink))
  {
    assert Matches(RouteTable[0].pattern, ["user", "login"]);
    assert Matches(RouteTable[1].pattern, ["groups"]);
    assert Matches(RouteTable[6].pattern, ["resolve-wa-link"]);
  }

  // ------------------------------------------------------------ dispatch

  /** What the server reads from a request, below the `/api` root. */
  datatype Request = Request(
    verb: Verb,
    path: seq<string>,
    authorization: Option<string>,
    query: map<string, string>,
    body: map<string, string>)

  /** The foreign services the handlers call: user table, crypto, the web and the store's substring match. */
  datatype Services = Services(
    users: map<string, Auth.User>,
    passwordMatches: (string, string) -> bool,
    sign: Auth.User -> string,
    verify: string -> bool,
    fetch: string -> Option<LinkResolver.Page>,
    contains: (string, string) -> bool)

  function Field(m: map<string, string>, key: string): Option<string>
  {
    if key in m then Some(m[key]) else None
  }

  /**
   * The router: an unregistered route gets the framework's 404; a guarded
   * route answers with the token check's 401 without running its handler;
   * otherwise the handler runs on the request.
   */
  method Dispatch(store: GroupStore.GroupTable, env: Services, req: Request) returns (r: Reply)
    requires store.Valid()
    modifies store
    ensures store.Valid()
    ensures store.nextId == old(store.nextId) + (if r.code == 201 then 1 else 0)
    ensures store.clock == old(store.clock) + (if r.code == 201 then 1 else 0)
    ensures Lookup(req.verb, req.path).None? ==> r == Reply(404, Empty) && unchanged(store)
    ensures Lookup(req.verb, req.path).Some? && Guarded(Lookup(req.verb, req.path).value)
            && Auth.AuthMiddleware(req.authorization, env.verify).Deny? ==>
      r == Auth.AuthMiddleware(req.authorization, env.verify).reply && r.code == 401 && unchanged(store)
    ensures Lookup(req.verb, req.path).Some? && !Mutates(Lookup(req.verb, req.path).value.handler) ==>
      unchanged(store)
    ensures Lookup(req.verb, req.path).Some? && Lookup(req.verb, req.path).value.handler == Login ==>
      r == Auth.Login(Field(req.body, "username"), Field(req.body, "password"),
                      env.users, env.passwordMatches, env.sign)
    ensures Lookup(req.verb, req.path).Some? && Lookup(req.verb, req.path).value.handler == GetGroups ==>
      r == store.Listing(Field(req.query, "search"), Field(req.query, "jenis"),
                         Field(req.query, "status"), env.contains)
    ensures Lookup(req.verb, req.path).Some? && Lookup(req.verb, req.path).value.handler == ResolveWaLink ==>
      r == LinkResolver.ResolveWaLink(Field(req.query, "url"), env.fetch)
    ensures r.code == 201 || r.code == 204 ==>
      Lookup(req.verb, req.path).Some? && Guarded(Lookup(req.verb, req.path).value)
      && Auth.AuthMiddleware(req.authorization, env.verify).Next?
    ensures Lookup(req.verb, req.path).Some? && Lookup(req.verb, req.path).value.handler == CreateGroup
            && Auth.AuthMiddleware(req.authorization, env.verify).Next? ==>
      var nama, link, jenis := Field(req.body, "nama"), Field(req.body, "link"), Field(req.body, "jenis");
      && (r.code == 201 <==> Truthy(nama) && Truthy(link) && Truthy(jenis))
      && (r.code != 201 ==> r == Reply(400, ErrorJson(GroupStore.MissingFields)) && store.rows == old(store.rows))
      && (r.code == 201 ==> r.body.GroupJson? && store.rows == old(store.rows) + [r.body.group])
      && (r.code == 201 ==>
            r.body.group == Group(old(store.nextId), nama.value, link.value, jenis.value,
                                  store.defaultStatus, old(store.clock)))
    ensures Lookup(req.verb, req.path).Some? && Lookup(req.verb, req.path).value.handler == UpdateGroup
            && Auth.AuthMiddleware(req.authorization, env.verify).Next? ==>
      var id := ParamValue(Lookup(req.verb, req.path).value.pattern, req.path, "id");
      && (old(store.Locate(id)).None? ==>
            r == Reply(500, ErrorJson(GroupStore.RecordNotFound)) && store.rows == old(store.rows))
      && (old(store.Locate(id)).Some? ==>
            var k := old(store.Locate(id)).value;
            var g := GroupStore.Merge(old(store.rows)[k], GroupStore.PatchOf(Field(req.body, "nama"),
                       Field(req.body, "link"), Field(req.body, "jenis"), Field(req.body, "status")));
            r == Reply(200, GroupJson(g)) && store.rows == old(store.rows)[k := g])
    ensures Lookup(req.verb, req.path).Some? && Lookup(req.verb, req.path).value.handler == DeleteGroup
            && Auth.AuthMiddleware(req.authorization, env.verify).Next? ==>
      var id := ParamValue(Lookup(req.verb, req.path).value.pattern, req.path, "id");
      && (r.code == 204 <==> old(store.Locate(id)).Some?)
      && (r.code != 204 ==> r == Reply(500, ErrorJson(GroupStore.RecordNotFound)) && store.rows == old(store.rows))
      && (old(store.Locate(id)).Some? ==>
            var k := old(store.Locate(id)).value;
            r == Reply(204, Empty) && store.rows == old(store.rows[..k] + store.rows[k + 1..]))
      && store.Locate(id).None?
    ensures Lookup(req.verb, req.path).Some? && Lookup(req.verb, req.path).value.handler == ChangeGroupStatus
            && Auth.AuthMiddleware(req.authorization, env.verify).Next? ==>
      var id := ParamValue(Lookup(req.verb, req.path).value.pattern, req.path, "id");
      var status := ParseStatus(Field(req.body, "status"));
      && (status.None? ==> r == Reply(400, ErrorJson(GroupStore.InvalidStatus)) && store.rows == old(store.rows))
      && (status.Some? && old(store.Locate(id)).None? ==>
            r == Reply(500, ErrorJson(GroupStore.RecordNotFound)) && store.rows == old(store.rows))
      && (status.Some? && old(store.Locate(id)).Some? ==>
            var k := old(store.Locate(id)).value;
            var g := old(store.rows)[k].(status := status.value);
            r == Reply(200, GroupJson(g)) && store.rows == old(store.rows)[k := g])
  {
    var found := Lookup(req.verb, req.path);
    if found.None? {
      r := Reply(404, Empty);
      return;
    }
    var route := found.value;
    if Guarded(route) {
      var gate := Auth.AuthMiddleware(req.authorization, env.verify);
      if gate.Deny? {
        r := gate.reply;
        return;
      }
    }
    GuardedExactlyWhenMutating(req.verb, req.path);
    r := RunHandler(store, env, req, route);
  }

  /** The handler of a registration, run on the request once its middleware has passed. */
  method RunHandler(store: GroupStore.GroupTable, env: Services, req: Request, route: Route) returns (r: Reply)
    requires store.Valid()
    modifies store
    ensures store.Valid()
    ensures store.nextId == old(store.nextId) + (if r.code == 201 then 1 else 0)
    ensures store.clock == old(store.clock) + (if r.code == 201 then 1 else 0)
    ensures !Mutates(route.handler) ==> unchanged(store)
    ensures r.code == 201 || r.code == 204 ==> Mutates(route.handler)
    ensures route.handler == Login ==>
      r == Auth.Login(Field(req.body, "username"), Field(req.body, "password"),
                      env.users, env.passwordMatches, env.sign)
    ensures route.handler == GetGroups ==>
      r == store.Listing(Field(req.query, "search"), Field(req.query, "jenis"),
                         Field(req.query, "status"), env.contains)
    ensures route.handler == ResolveWaLink ==> r == LinkResolver.ResolveWaLink(Field(req.query, "url"), env.fetch)
    ensures route.handler == CreateGroup ==>
      var nama, link, jenis := Field(req.body, "nama"), Field(req.body, "link"), Field(req.body, "jenis");
      && (r.code == 201 <==> Truthy(nama) && Truthy(link) && Truthy(jenis))
      && (r.code != 201 ==> r == Reply(400, ErrorJson(GroupStore.MissingFields)) && store.rows == old(store.rows))
      && (r.code == 201 ==> r.body.GroupJson? && store.rows == old(store.rows) + [r.body.group])
      && (r.code == 201 ==>
            r.body.group == Group(old(store.nextId), nama.value, link.value, jenis.value,
                                  store.defaultStatus, old(store.clock)))
    ensures route.handler == UpdateGroup ==>
      var id := ParamValue(route.pattern, req.path, "id");
      && (old(store.Locate(id)).None? ==>
            r == Reply(500, ErrorJson(GroupStore.RecordNotFound)) && store.rows == old(store.rows))
      && (old(store.Locate(id)).Some? ==>
            var k := old(store.Locate(id)).value;
            var g := GroupStore.Merge(old(store.rows)[k], GroupStore.PatchOf(Field(req.body, "nama"),
                       Field(req.body, "link"), Field(req.body, "jenis"), Field(req.body, "status")));
            r == Reply(200, GroupJson(g)) && store.rows == old(store.rows)[k := g])
    ensures route.handler == DeleteGroup ==>
      var id := ParamValue(route.pattern, req.path, "id");
      && (r.code == 204 <==> old(store.Locate(id)).Some?)
      && (r.code != 204 ==> r == Reply(500, ErrorJson(GroupStore.RecordNotFound)) && store.rows == old(store.rows))
      && (old(store.Locate(id)).Some? ==>
            var k := old(store.Locate(id)).value;
            r == Reply(204, Empty) && store.rows == old(store.rows[..k] + store.rows[k + 1..]))
      && store.Locate(id).None?
    ensures route.handler == ChangeGroupStatus ==>
      var id := ParamValue(route.pattern, req.path, "id");
      var status := ParseStatus(Field(req.body, "status"));
      && (status.None? ==> r == Reply(400, ErrorJson(GroupStore.InvalidStatus)) && store.rows == old(store.rows))
      && (status.Some? && old(store.Locate(id)).None? ==>
            r == Reply(500, ErrorJson(GroupStore.RecordNotFound)) && store.rows == old(store.rows))
      && (status.Some? && old(store.Locate(id)).Some? ==>
            var k := old(store.Locate(id)).value;
            var g := old(store.rows)[k].(status := status.value);
            r == Reply(200, GroupJson(g)) && store.rows == old(store.rows)[k := g])
  {
    var id := ParamValue(route.pattern, req.path, "id");
    match route.handler {
      case Login =>
        r := Auth.Login(Field(req.body, "username"), Field(req.body, "password"),
                        env.users, env.passwordMatches, env.sign);
      case GetGroups =>
        r := store.Listing(Field(req.query, "search"), Field(req.query, "jenis"),
                           Field(req.query, "status"), env.contains);
      case ResolveWaLink =>
        r := LinkResolver.ResolveWaLink(Field(req.query, "url"), env.fetch);
      case CreateGroup =>
        r := store.Create(Field(req.body, "nama"), Field(req.body, "link"), Field(req.body, "jenis"));
      case UpdateGroup =>
        r := store.Update(id, Field(req.body, "nama"), Field(req.body, "link"),
                          Field(req.body, "jenis"), Field(req.body, "status"));
      case DeleteGroup =>
        r := store.Delete(id);
      case ChangeGroupStatus =>
        r := store.ChangeStatus(id, Field(req.body, "status"));
    }
  }

  /** Creating a group without an Authorization header: 401 "Unauthorized", and nothing is written. */
  method CreateWithoutToken(store: GroupStore.GroupTable, env: Services, body: map<string, string>)
    returns (r: Reply)
    requires store.Valid()
    modifies store
    ensures r == Reply(401, ErrorJson(Auth.Unauthorized)) && unchanged(store)
  {
    MutatingRoutesGuarded("1");
    r := Dispatch(store, env, Request(POST, ["groups"], None, map[], body));
  }

  /** Listing the groups without an Authorization header succeeds: the route is public. */
  method ListWithoutToken(store: GroupStore.GroupTable, env: Services) returns (r: Reply)
    requires store.Valid()
    modifies store
    ensures r.code == 200 && r.body.GroupListJson? && unchanged(store)
    ensures forall g :: g in r.body.groups <==> g in store.rows
  {
    PublicRoutes();
    r := Dispatch(store, env, Request(GET, ["groups"], None, map[], map[]));
  }
}
