/**
 * The application that `MiniExpress.main` sets up, and what it answers.
 */
module ExampleApp {
  import opened Wrappers
  import opened JavaStrings
  import opened PathMatcher
  import opened QueryString
  import opened Http
  import opened Pipeline
  import opened Server

  /** The logging middleware: it prints (not modelled) and calls `next`. */
  const Logger := Middleware([], true, [])

  const AppRoutes := [Route("GET", "/", Hello), Route("GET", "/user/:id", UserById), Route("POST", "/echo", Echo)]

  // The lemmas below take the route table as a parameter `routes` with
  // `requires routes == AppRoutes` (and single routes as `r: Route` with
  // `requires r == Route(...)`) instead of naming the literal directly:
  // with the literal patterns in every proof, the verifier unfolds the
  // splits of all of them at once and runs out of resources. Each lemma is
  // still a statement about `AppRoutes` and its routes.

  /** `main`, up to `listen`. */
  method Setup() returns (app: MiniExpress)
    ensures fresh(app)
    ensures app.middlewares == [Logger] && app.routes == AppRoutes
  {
    app := new MiniExpress();
    app.Use(Logger);
    app.Get("/", Hello);
    app.Get("/user/:id", UserById);
    app.Post("/echo", Echo);
  }

  /** POST /echo answers the body back as JSON, its double quotes escaped. */
  lemma EchoServesBody(routes: seq<Route>, rawQuery: Option<string>, body: string)
    requires routes == AppRoutes
    ensures Dispatch(routes, [Logger], Incoming("POST", "/echo", rawQuery, body)).writes
         == [Write(200, Some(ApplicationJson), "{\"you_sent\": \"" + EscapeQuotes(body) + "\"}")]
  {
    JavaSplitJoin(["", "echo"], '/');
    assert Join(["", "echo"], '/') == "/echo";
    assert Agree(["", "echo"], ["", "echo"]);
    assert Selects(routes[2], "POST", "/echo");
    assert FindFrom(routes, 0, "POST", "/echo") == Some(2) by {
      assert !Selects(routes[0], "POST", "/echo") && !Selects(routes[1], "POST", "/echo");
    }
    var req := Request(MatchSpec("/echo", "/echo").value, QuerySpec(rawQuery), body);
    HandlerResponse([Logger], 0, Echo, req, ResState(false, []));
  }

  /** The body `hello "world"` is echoed as `hello \\"world\\"`: only the double quotes are escaped. */
  lemma EscapeExample(body: string)
    requires body == "hello \"world\""
    ensures EscapeQuotes(body) == "hello \\\"world\\\""
  {
    var h, w := "hello ", "world";
    assert body == h + ("\"" + (w + "\""));
    EscapeQuotedWord(h, w);
  }

  /** GET /user/<id> selects the second route. */
  lemma UserPathSelectsUserRoute(routes: seq<Route>, id: string)
    requires routes == AppRoutes
    requires id != [] && '/' !in id
    ensures Lookup(routes, "GET", "/user/" + id) == Some(1)
  {
    var path := "/user/" + id;
    UserPathSplit(id);
    RootRouteSkipsUserPath(routes[0], id);
    UserRouteTakesUserPath(routes[1], id);
    assert FindFrom(routes, 1, "GET", path) == Some(1);
  }

  lemma RootRouteSkipsUserPath(r: Route, id: string)
    requires r == Route("GET", "/", Hello) && id != [] && '/' !in id
    ensures !Selects(r, "GET", "/user/" + id)
  {
    UserPathSplit(id);
    RootRouteMatchesOnlyEmpty("/user/" + id);
  }

  lemma UserRouteTakesUserPath(r: Route, id: string)
    requires r == Route("GET", "/user/:id", UserById) && id != [] && '/' !in id
    ensures Selects(r, "GET", "/user/" + id)
  {
    UserRouteMatches(id);
  }

  /** With the logger as the only middleware, the selected route's handler writes the reply. */
  lemma ServedBy(routes: seq<Route>, incoming: Incoming, i: nat, params: map<string, string>)
    requires i < |routes| && Lookup(routes, incoming.httpMethod, incoming.path) == Some(i)
    requires MatchSpec(routes[i].path, incoming.path) == Some(params)
    requires HandlerActions(routes[i].handler, Request(params, QuerySpec(incoming.rawQuery), incoming.body)) != []
    ensures Dispatch(routes, [Logger], incoming).writes
         == [WriteOf(HandlerActions(routes[i].handler, Request(params, QuerySpec(incoming.rawQuery), incoming.body))[0])]
  {
    var req := Request(params, QuerySpec(incoming.rawQuery), incoming.body);
    HandlerResponse([Logger], 0, routes[i].handler, req, ResState(false, []));
  }

  /** GET /user/<id> answers the id bound from the path, e.g. /user/42 gives {"user_id": "42"}. */
  lemma UserServesId(routes: seq<Route>, id: string, rawQuery: Option<string>, body: string)
    requires routes == AppRoutes
    requires id != [] && '/' !in id
    ensures Dispatch(routes, [Logger], Incoming("GET", "/user/" + id, rawQuery, body)).writes
         == [Write(200, Some(ApplicationJson), "{\"user_id\": \"" + id + "\"}")]
  {
    UserPathSelectsUserRoute(routes, id);
    UserRouteBindsId(routes[1], id);
    ServedBy(routes, Incoming("GET", "/user/" + id, rawQuery, body), 1, map["id" := id]);
  }

  lemma UserRouteBindsId(r: Route, id: string)
    requires r == Route("GET", "/user/:id", UserById) && id != [] && '/' !in id
    ensures MatchSpec(r.path, "/user/" + id) == Some(map["id" := id]) && r.handler == UserById
  {
    UserRouteMatches(id);
  }

  lemma RootRouteSkipsTwoSegments(r: Route, path: string)
    requires r == Route("GET", "/", Hello) && |JavaSplit(path, '/')| == 2
    ensures !Selects(r, "GET", path)
  {
    RootRouteMatchesOnlyEmpty(path);
  }

  lemma UserRouteSkipsTwoSegments(r: Route, path: string)
    requires r == Route("GET", "/user/:id", UserById) && |JavaSplit(path, '/')| == 2
    ensures !Selects(r, "GET", path)
  {
    UserRouteNeedsThreeSegments(path);
  }

  lemma NoRouteSelectsTwoSegmentGet(routes: seq<Route>, path: string)
    requires routes == AppRoutes
    requires |JavaSplit(path, '/')| == 2
    ensures forall j :: 0 <= j < |routes| ==> !Selects(routes[j], "GET", path)
  {
    forall j | 0 <= j < |routes|
      ensures !Selects(routes[j], "GET", path)
    {
      if j == 0 {
        RootRouteSkipsTwoSegments(routes[0], path);
      } else if j == 1 {
        UserRouteSkipsTwoSegments(routes[1], path);
      } else {
        assert routes[j].httpMethod == "POST";
      }
    }
  }

  /** A GET for any two-segment path ("/nope") matches none of the routes: 404, and the logger never runs. */
  lemma TwoSegmentGetNotFound(routes: seq<Route>, path: string, rawQuery: Option<string>, body: string)
    requires routes == AppRoutes
    requires |JavaSplit(path, '/')| == 2
    ensures Dispatch(routes, [Logger], Incoming("GET", path, rawQuery, body)) == Outcome([], [Write(404, None, "404 Not Found")])
  {
    NoRouteSelectsTwoSegmentGet(routes, path);
    NotFoundResponse(routes, [Logger], Incoming("GET", path, rawQuery, body));
  }

  lemma NopeExample(routes: seq<Route>)
    requires routes == AppRoutes
    ensures Dispatch(routes, [Logger], Incoming("GET", "/nope", None, "")) == Outcome([], [Write(404, None, "404 Not Found")])
  {
    JavaSplitJoin(["", "nope"], '/');
    assert Join(["", "nope"], '/') == "/nope";
    TwoSegmentGetNotFound(routes, "/nope", None, "");
  }
}
