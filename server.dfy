/**
 * `MiniExpress` itself: the route and middleware lists that `get`, `post`
 * and `use` append to, and the per-request handler that `listen` installs:
 * scan the routes in order, run the middleware chain for the first route
 * that matches, or answer 404 without running any middleware.
 */
module Server {
  import opened Wrappers
  import opened PathMatcher
  import opened QueryString
  import opened Http
  import opened Pipeline

  datatype Route = Route(httpMethod: string, path: string, handler: Handler)

  /** `r.method.equals(method) && match(r.path, reqPath) != null`. */
  predicate Selects(r: Route, httpMethod: string, reqPath: string)
  {
    r.httpMethod == httpMethod && MatchSpec(r.path, reqPath).Some?
  }

  /** The first route at or after `i` that the request selects. */
  function FindFrom(routes: seq<Route>, i: nat, httpMethod: string, reqPath: string): (r: Option<nat>)
    requires i <= |routes|
    ensures r.Some? ==> i <= r.value < |routes| && Selects(routes[r.value], httpMethod, reqPath)
    ensures r.Some? ==> forall j :: i <= j < r.value ==> !Selects(routes[j], httpMethod, reqPath)
    ensures r.None? ==> forall j :: i <= j < |routes| ==> !Selects(routes[j], httpMethod, reqPath)
    decreases |routes| - i
  {
    if i == |routes| then None
    else if Selects(routes[i], httpMethod, reqPath) then Some(i)
    else FindFrom(routes, i + 1, httpMethod, reqPath)
  }

  /** Route lookup: first match wins, in registration order. */
  function Lookup(routes: seq<Route>, httpMethod: string, reqPath: string): Option<nat>
  {
    FindFrom(routes, 0, httpMethod, reqPath)
  }

  const NotFound := Write(404, None, "404 Not Found")

  /** What one request leads to: who ran, and what reached the transport. */
  datatype Outcome = Outcome(trace: seq<Step>, writes: seq<Write>)

  /** The dispatch of one request on a fresh exchange. */
  function Dispatch(routes: seq<Route>, mws: seq<Middleware>, incoming: Incoming): Outcome
  {
    match Lookup(routes, incoming.httpMethod, incoming.path)
    case None => Outcome([], [NotFound])
    case Some(i) =>
      var req := Request(MatchSpec(routes[i].path, incoming.path).value, QuerySpec(incoming.rawQuery), incoming.body);
      var c := RunChain(mws, 0, routes[i].handler, req, ResState(false, []));
      Outcome(c.trace, c.state.writes)
  }

  class MiniExpress {
    var routes: seq<Route>
    var middlewares: seq<Middleware>

    constructor ()
      ensures routes == [] && middlewares == []
    {
      routes := [];
      middlewares := [];
    }

    method Get(path: string, handler: Handler)
      modifies this
      ensures routes == old(routes) + [Route("GET", path, handler)]
      ensures middlewares == old(middlewares)
    {
      routes := routes + [Route("GET", path, handler)];
    }

    method Post(path: string, handler: Handler)
      modifies this
      ensures routes == old(routes) + [Route("POST", path, handler)]
      ensures middlewares == old(middlewares)
    {
      routes := routes + [Route("POST", path, handler)];
    }

    method Use(m: Middleware)
      modifies this
      ensures middlewares == old(middlewares) + [m]
      ensures routes == old(routes)
    {
      middlewares := middlewares + [m];
    }

    /** `runMiddleware(index, req, res, next)`, `next` being the handler call. */
    method RunMiddleware(index: nat, req: Request, res: Response, handler: Handler) returns (trace: seq<Step>)
      modifies res, res.exchange
      ensures res.State() == RunChain(middlewares, index, handler, req, old(res.State())).state
      ensures trace == RunChain(middlewares, index, handler, req, old(res.State())).trace
      decreases |middlewares| - index
    {
      if index < |middlewares| {
        var m := middlewares[index];
        res.PerformAll(m.before);
        var inner := [];
        if m.callsNext {
          inner := RunMiddleware(index + 1, req, res, handler);
        }
        res.PerformAll(m.after);
        trace := [Entered(index)] + inner;
      } else {
        res.PerformAll(HandlerActions(handler, req));
        trace := [Handled];
      }
    }

    /** The handler `listen` registers for "/", on one request's exchange. */
    method Handle(ex: Exchange) returns (trace: seq<Step>)
      requires ex.writes == []
      modifies ex
      ensures trace == Dispatch(routes, middlewares, ex.request).trace
      ensures ex.writes == Dispatch(routes, middlewares, ex.request).writes
    {
      var reqPath := ex.request.path;
      var httpMethod := ex.request.httpMethod;
      for i := 0 to |routes|
        invariant Lookup(routes, httpMethod, reqPath) == FindFrom(routes, i, httpMethod, reqPath)
        invariant ex.writes == []
      {
        var r := routes[i];
        var params := Match(r.path, reqPath);
        if r.httpMethod == httpMethod && params.Some? {
          var req := NewRequest(ex, params.value);
          var res := new Response(ex);
          trace := RunMiddleware(0, req, res, r.handler);
          return;
        }
      }
      ex.writes := ex.writes + [NotFound];
      trace := [];
    }
  }

  /** No route selects the request: 404, and nothing else runs. */
  lemma NotFoundResponse(routes: seq<Route>, mws: seq<Middleware>, incoming: Incoming)
    requires forall j :: 0 <= j < |routes| ==> !Selects(routes[j], incoming.httpMethod, incoming.path)
    ensures Dispatch(routes, mws, incoming) == Outcome([], [Write(404, None, "404 Not Found")])
  {
  }

  /** Nothing runs exactly when no route selects the request. */
  lemma NothingRunsIffNotFound(routes: seq<Route>, mws: seq<Middleware>, incoming: Incoming)
    ensures Dispatch(routes, mws, incoming).trace == [] <==> Lookup(routes, incoming.httpMethod, incoming.path).None?
  {
  }

  /** Of two registrations with the same method and path, the later never serves. */
  lemma EarlierRegistrationShadows(routes: seq<Route>, i: nat, j: nat, httpMethod: string, reqPath: string)
    requires i < j < |routes|
    requires routes[i].httpMethod == routes[j].httpMethod && routes[i].path == routes[j].path
    ensures Lookup(routes, httpMethod, reqPath) != Some(j)
  {
  }

  /**
   * Appending a route never changes a lookup that already succeeds; one that
   * failed now finds the new route exactly when it selects the request.
   */
  lemma {:induction false} AppendKeepsLookup(routes: seq<Route>, r: Route, i: nat, httpMethod: string, reqPath: string)
    requires i <= |routes|
    ensures var before, after := FindFrom(routes, i, httpMethod, reqPath), FindFrom(routes + [r], i, httpMethod, reqPath);
      && (before.Some? ==> after == before)
      && (before.None? && Selects(r, httpMethod, reqPath) ==> after == Some(|routes|))
      && (before.None? && !Selects(r, httpMethod, reqPath) ==> after == None)
    decreases |routes| - i
  {
    var routes' := routes + [r];
    if i < |routes| {
      assert routes'[i] == routes[i];
      if !Selects(routes[i], httpMethod, reqPath) {
        AppendKeepsLookup(routes, r, i + 1, httpMethod, reqPath);
        assert FindFrom(routes', i, httpMethod, reqPath) == FindFrom(routes', i + 1, httpMethod, reqPath);
      }
    } else {
      assert routes'[i] == r;
      if !Selects(r, httpMethod, reqPath) {
        assert FindFrom(routes', i, httpMethod, reqPath) == FindFrom(routes', i + 1, httpMethod, reqPath);
      }
    }
  }

  /** A dispatch writes at most once to the transport. */
  lemma DispatchWritesAtMostOnce(routes: seq<Route>, mws: seq<Middleware>, incoming: Incoming)
    ensures |Dispatch(routes, mws, incoming).writes| <= 1
  {
    match Lookup(routes, incoming.httpMethod, incoming.path)
    case None =>
    case Some(i) =>
      var req := Request(MatchSpec(routes[i].path, incoming.path).value, QuerySpec(incoming.rawQuery), incoming.body);
      ChainWritesAtMostOnce(mws, 0, routes[i].handler, req, ResState(false, []));
  }

  /** A matched request runs every middleware in order, then the handler, when all call `next`. */
  lemma DispatchRunsMiddlewaresInOrder(routes: seq<Route>, mws: seq<Middleware>, incoming: Incoming)
    requires Lookup(routes, incoming.httpMethod, incoming.path).Some?
    requires forall j :: 0 <= j < |mws| ==> mws[j].callsNext
    ensures Dispatch(routes, mws, incoming).trace == Entries(0, |mws|) + [Handled]
  {
    var i := Lookup(routes, incoming.httpMethod, incoming.path).value;
    var req := Request(MatchSpec(routes[i].path, incoming.path).value, QuerySpec(incoming.rawQuery), incoming.body);
    ChainRunsInOrder(mws, 0, routes[i].handler, req, ResState(false, []));
  }

  /** A matched request whose middleware `k` stops the chain never reaches later ones or the handler. */
  lemma DispatchShortCircuit(routes: seq<Route>, mws: seq<Middleware>, incoming: Incoming, k: nat)
    requires Lookup(routes, incoming.httpMethod, incoming.path).Some?
    requires k < |mws| && !mws[k].callsNext
    requires forall j :: 0 <= j < k ==> mws[j].callsNext
    ensures Dispatch(routes, mws, incoming).trace == Entries(0, k + 1)
  {
    var i := Lookup(routes, incoming.httpMethod, incoming.path).value;
    var req := Request(MatchSpec(routes[i].path, incoming.path).value, QuerySpec(incoming.rawQuery), incoming.body);
    ChainShortCircuit(mws, 0, k, routes[i].handler, req, ResState(false, []));
  }
}
